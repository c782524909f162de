/**
 What a whole migration does: the change sets of consecutive blocks are applied
 to a consensus set held as a map from key to power.
 */
module MigrationWindow {
  import opened Common
  import opened Migration

  type Powers = map<PubKey, nat>

  function Uniform(keys: set<PubKey>): Powers {
    map k | k in keys :: 1
  }

  /** An update overrides the power of its key; power 0 removes the key. */
  function Apply(p: Powers, us: seq<ValidatorUpdate>): Powers {
    if us == [] then p
    else
      var before := Apply(p, us[..|us| - 1]);
      var u := us[|us| - 1];
      if u.power == 0 then before - {u.key} else before[u.key := u.power]
  }

  lemma {:induction false} ApplyAppend(p: Powers, us: seq<ValidatorUpdate>, vs: seq<ValidatorUpdate>)
    ensures Apply(p, us + vs) == Apply(Apply(p, us), vs)
  {
    if vs == [] {
      assert us + vs == us;
    } else {
      assert (us + vs)[..|us + vs| - 1] == us + vs[..|vs| - 1];
      ApplyAppend(p, us, vs[..|vs| - 1]);
    }
  }

  lemma {:induction false} ApplyZeros(p: Powers, keys: seq<PubKey>)
    ensures Apply(p, Zeros(keys)) == p - Elems(keys)
  {
    if keys == [] {
    } else {
      var front := keys[..|keys| - 1];
      assert keys == front + [keys[|keys| - 1]];
      assert Elems(keys) == Elems(front) + {keys[|keys| - 1]};
      assert Zeros(keys)[..|keys| - 1] == Zeros(front);
      ApplyZeros(p, front);
    }
  }

  lemma UniformAdd(p: Powers, keys: set<PubKey>, k: PubKey)
    ensures (p + Uniform(keys))[k := 1] == p + Uniform(keys + {k})
  {
  }

  lemma {:induction false} ApplyOnes(p: Powers, keys: seq<PubKey>)
    ensures Apply(p, Ones(keys)) == p + Uniform(Elems(keys))
  {
    if keys == [] {
    } else {
      var front := keys[..|keys| - 1];
      var last := keys[|keys| - 1];
      assert keys == front + [last];
      assert Elems(keys) == Elems(front) + {last};
      assert Ones(keys)[..|keys| - 1] == Ones(front);
      ApplyOnes(p, front);
      UniformAdd(p, Elems(front), last);
      assert Apply(p, Ones(keys)) == Apply(p, Ones(front))[last := 1];
    }
  }

  // ---------------------------------------------------------------- chunk arithmetic

  lemma PerStepBounds(n: nat)
    ensures n <= SMOOTHING * PerStep(n) < n + SMOOTHING
  {
  }

  /** No slice of the window panics exactly when the last one does not. */
  lemma ChunkBound(n: nat)
    ensures (forall k :: 0 <= k < SMOOTHING ==> InBounds(n, k)) <==> (SMOOTHING - 1) * PerStep(n) <= n
    ensures (SMOOTHING - 1) * PerStep(n) <= n <==> SMOOTHING * PerStep(n) - n <= PerStep(n)
    ensures n >= 812 ==> (SMOOTHING - 1) * PerStep(n) <= n
  {
    if (SMOOTHING - 1) * PerStep(n) <= n {
      forall k | 0 <= k < SMOOTHING ensures InBounds(n, k) {
        MulMonotone(k, SMOOTHING - 1, PerStep(n));
      }
    } else {
      assert !InBounds(n, SMOOTHING - 1);
    }
  }

  /** 812 is the least safe threshold, and small sets fail: one key panics at step 2. */
  lemma ChunkBoundIsSharp()
    ensures (SMOOTHING - 1) * PerStep(811) > 811
    ensures InBounds(1, 0) && InBounds(1, 1) && !InBounds(1, 2)
  {
  }

  function ChunksUpTo(xs: seq<PubKey>, k: nat): seq<PubKey>
    requires forall j :: 0 <= j < k ==> InBounds(|xs|, j)
  {
    if k == 0 then [] else ChunksUpTo(xs, k - 1) + Chunk(xs, k - 1)
  }

  lemma CoveredStep(n: nat, k: nat)
    requires InBounds(n, k)
    ensures Covered(n, k) == k * PerStep(n)
    ensures Covered(n, k + 1) == Min(k * PerStep(n) + PerStep(n), n)
  {
    assert (k + 1) * PerStep(n) == k * PerStep(n) + PerStep(n);
  }

  lemma TakeChunk(xs: seq<PubKey>, k: nat)
    requires InBounds(|xs|, k)
    ensures xs[..Covered(|xs|, k + 1)] == xs[..Covered(|xs|, k)] + Chunk(xs, k)
  {
    CoveredStep(|xs|, k);
  }

  lemma {:induction false} ChunksArePrefix(xs: seq<PubKey>, k: nat)
    requires forall j :: 0 <= j < k ==> InBounds(|xs|, j)
    ensures ChunksUpTo(xs, k) == xs[..Covered(|xs|, k)]
  {
    if k == 0 {
    } else {
      ChunksArePrefix(xs, k - 1);
      TakeChunk(xs, k - 1);
    }
  }

  /** Within the bound the chunks, in order, are the whole list: nothing repeated, nothing omitted. */
  lemma ChunksPartition(xs: seq<PubKey>)
    requires forall j :: 0 <= j < SMOOTHING ==> InBounds(|xs|, j)
    ensures ChunksUpTo(xs, SMOOTHING) == xs
  {
    ChunksArePrefix(xs, SMOOTHING);
    PerStepBounds(|xs|);
  }

  // ---------------------------------------------------------------- who moves, and when

  /** How many of the first i keys are kept. */
  function KeptBefore(xs: seq<PubKey>, drop: set<PubKey>, i: nat): nat
    requires i <= |xs|
  {
    if i == 0 then 0 else KeptBefore(xs, drop, i - 1) + (if xs[i - 1] in drop then 0 else 1)
  }

  lemma {:induction false} KeptPrefix(xs: seq<PubKey>, drop: set<PubKey>, n: nat, i: nat)
    requires i <= n <= |xs|
    ensures KeptBefore(xs[..n], drop, i) == KeptBefore(xs, drop, i)
  {
    if i > 0 { KeptPrefix(xs, drop, n, i - 1); }
  }

  /** At position i of xs, a key that is not dropped is found behind those kept before it. */
  predicate KeptAt(xs: seq<PubKey>, drop: set<PubKey>, i: nat)
    requires i < |xs|
  {
    var at := KeptBefore(xs, drop, i);
    xs[i] !in drop ==> at < |Without(xs, drop)| && Without(xs, drop)[at] == xs[i]
  }

  lemma KeptLast(xs: seq<PubKey>, drop: set<PubKey>, n: nat)
    requires |xs| == n + 1 && |Without(xs[..n], drop)| == KeptBefore(xs, drop, n)
    ensures |Without(xs, drop)| == KeptBefore(xs, drop, n + 1) && KeptAt(xs, drop, n)
    ensures Without(xs[..n], drop) <= Without(xs, drop)
  {
  }

  lemma KeptStill(xs: seq<PubKey>, drop: set<PubKey>, n: nat, i: nat)
    requires |xs| == n + 1 && i < n && KeptAt(xs[..n], drop, i) && Without(xs[..n], drop) <= Without(xs, drop)
    ensures KeptAt(xs, drop, i)
  {
    KeptPrefix(xs, drop, n, i);
    assert xs[..n][i] == xs[i];
  }

  /** The keys that are not dropped stay, every occurrence of them and in their order. */
  lemma {:induction false} KeptInOrder(xs: seq<PubKey>, drop: set<PubKey>)
    ensures |Without(xs, drop)| == KeptBefore(xs, drop, |xs|)
    ensures forall i :: 0 <= i < |xs| ==> KeptAt(xs, drop, i)
  {
    if xs != [] {
      var n := |xs| - 1;
      KeptInOrder(xs[..n], drop);
      KeptPrefix(xs, drop, n, n);
      KeptLast(xs, drop, n);
      forall i | 0 <= i < n ensures KeptAt(xs, drop, i) { KeptStill(xs, drop, n, i); }
    }
  }

  lemma KeptPlaces(xs: seq<PubKey>, drop: set<PubKey>)
    ensures forall i :: 0 <= i < |xs| && xs[i] !in drop ==>
              var at := KeptBefore(xs, drop, i); at < |Without(xs, drop)| && Without(xs, drop)[at] == xs[i]
  {
    KeptInOrder(xs, drop);
    forall i | 0 <= i < |xs| && xs[i] !in drop
      ensures var at := KeptBefore(xs, drop, i); at < |Without(xs, drop)| && Without(xs, drop)[at] == xs[i]
    {
      assert KeptAt(xs, drop, i);
    }
  }

  /** Who leaves: exactly the validators that are no targets, in validator order. */
  lemma RemovalsExactly(m: RollkitMigration, vals: seq<PubKey>)
    ensures forall x :: x in Removals(m, vals) <==>
              x in vals && (if m.attesters == [] then x != m.sequencer else x !in m.attesters)
    ensures forall i :: 0 <= i < |vals| && vals[i] !in Elems(Targets(m)) ==>
              var at := KeptBefore(vals, Elems(Targets(m)), i);
              at < |Removals(m, vals)| && Removals(m, vals)[at] == vals[i]
    ensures |Removals(m, vals)| == KeptBefore(vals, Elems(Targets(m)), |vals|)
  {
    KeptPlaces(vals, Elems(Targets(m)));
    KeptInOrder(vals, Elems(Targets(m)));
  }

  /** Who comes: exactly the attesters that are no validators, in attester order; nobody when there are no attesters. */
  lemma AdditionsExactly(m: RollkitMigration, vals: seq<PubKey>)
    ensures forall x :: x in Additions(m, vals) <==> x in m.attesters && x !in vals
    ensures forall i :: 0 <= i < |m.attesters| && m.attesters[i] !in Elems(vals) ==>
              var at := KeptBefore(m.attesters, Elems(vals), i);
              at < |Additions(m, vals)| && Additions(m, vals)[at] == m.attesters[i]
    ensures |Additions(m, vals)| == KeptBefore(m.attesters, Elems(vals), |m.attesters|)
  {
    KeptPlaces(m.attesters, Elems(vals));
    KeptInOrder(m.attesters, Elems(vals));
  }

  /** Each step takes the next ceil(n / 30) keys of the list, as long as there are so many. */
  lemma ChunkSchedule(xs: seq<PubKey>, k: nat)
    requires InBounds(|xs|, k)
    ensures var q := PerStep(|xs|);
            && 30 * q >= |xs| && (q > 0 ==> 30 * (q - 1) < |xs|)
            && |Chunk(xs, k)| == (if k * q + q <= |xs| then q else |xs| - k * q)
            && forall i :: 0 <= i < |Chunk(xs, k)| ==> Chunk(xs, k)[i] == xs[k * q + i]
  {
    PerStepBounds(|xs|);
  }

  /** Removals at power 0, additions at power 1, then in the first step everybody else at power 1. */
  predicate StepShape(us: seq<ValidatorUpdate>, gone: seq<PubKey>, added: seq<PubKey>, vals: seq<PubKey>, first: bool) {
    var n := |gone| + |added|;
    && |us| >= n
    && (forall i :: 0 <= i < |gone| ==> us[i] == ValidatorUpdate(gone[i], 0))
    && (forall i :: 0 <= i < |added| ==> us[|gone| + i] == ValidatorUpdate(added[i], 1))
    && us[n..] == if first then Ones(Without(vals, Elems(gone) + Elems(added))) else []
  }

  /** What one smoothed step emits. */
  lemma StepUpdates(m: RollkitMigration, vals: seq<PubKey>, k: nat)
    requires StepOk(m, vals, k)
    ensures var gone, added := Chunk(Removals(m, vals), k), Chunk(Additions(m, vals), k);
            StepShape(SmoothUpdates(m, vals, k), gone, added, vals, k == 0)
  {
    MovedShape(Chunk(Removals(m, vals), k), Chunk(Additions(m, vals), k), vals);
  }

  lemma MovedShape(gone: seq<PubKey>, added: seq<PubKey>, vals: seq<PubKey>)
    ensures var moved := Zeros(gone) + Ones(added);
            && StepShape(moved, gone, added, vals, false)
            && StepShape(moved + Ones(Without(vals, Elems(Keys(moved)))), gone, added, vals, true)
  {
    var moved := Zeros(gone) + Ones(added);
    KeysOfMoved(gone, added);
    ZerosThenOnes(gone, added, Ones(Without(vals, Elems(Keys(moved)))));
    ZerosThenOnes(gone, added, []);
    assert moved + [] == moved;
  }

  lemma ZerosThenOnes(gone: seq<PubKey>, added: seq<PubKey>, rest: seq<ValidatorUpdate>)
    ensures var us, n := Zeros(gone) + Ones(added) + rest, |gone| + |added|;
            && |us| == n + |rest| && us[n..] == rest
            && (forall i :: 0 <= i < |gone| ==> us[i] == ValidatorUpdate(gone[i], 0))
            && (forall i :: 0 <= i < |added| ==> us[|gone| + i] == ValidatorUpdate(added[i], 1))
  {
  }

  /** The closing change set: all removals again, then every target at power 1. */
  lemma ClosingUpdates(m: RollkitMigration, vals: seq<PubKey>)
    ensures var us, rem, targets := FinalUpdates(m, vals), Removals(m, vals), Targets(m);
            && |us| == |rem| + |targets|
            && (forall i :: 0 <= i < |rem| ==> us[i] == ValidatorUpdate(rem[i], 0))
            && (forall i :: 0 <= i < |targets| ==> us[|rem| + i] == ValidatorUpdate(targets[i], 1))
            && targets == if m.attesters == [] then [m.sequencer] else m.attesters
  {
    ZerosThenOnes(Removals(m, vals), Targets(m), []);
    assert FinalUpdates(m, vals) + [] == FinalUpdates(m, vals);
  }

  /** What the failures of a step and of the closing change set say. */
  lemma FailuresExplained(m: RollkitMigration, vals: seq<PubKey>, k: nat)
    ensures var r, rem, add := MovedOrFailure(m, vals, k), Removals(m, vals), Additions(m, vals);
            && (r == Err(SlicePanic) ==> k * PerStep(|rem|) > |rem| || k * PerStep(|add|) > |add|)
            && (r == Err(KeyPanic) ==> exists x :: x in rem && !x.decodable)
            && (r == Err(BadKey) ==> exists x :: x in add && !x.decodable)
    ensures var r := FinalOrFailure(m, vals);
            && (r.Ok? <==> forall x :: x in Removals(m, vals) || x in Targets(m) ==> x.decodable)
            && (r == Err(KeyPanic) ==> exists x :: x in Removals(m, vals) && !x.decodable)
            && (r == Err(BadKey) ==> exists x :: x in Targets(m) && !x.decodable)
            && r != Err(SlicePanic)
  {
    var r, rem, add := MovedOrFailure(m, vals, k), Removals(m, vals), Additions(m, vals);
    if r == Err(KeyPanic) { UnreadableInChunk(rem, k); }
    if r == Err(BadKey) { UnreadableInChunk(add, k); }
    Readable(rem);
    Readable(Targets(m));
    if m.attesters == [] { assert Targets(m)[0] == m.sequencer; }
  }

  lemma Readable(xs: seq<PubKey>)
    ensures Decodable(xs) <==> forall x :: x in xs ==> x.decodable
  {
  }

  lemma UnreadableInChunk(xs: seq<PubKey>, k: nat)
    requires InBounds(|xs|, k) && !Decodable(Chunk(xs, k))
    ensures exists x :: x in xs && !x.decodable
  {
    var i :| 0 <= i < |Chunk(xs, k)| && !Chunk(xs, k)[i].decodable;
    assert Chunk(xs, k)[i] == xs[k * PerStep(|xs|) + i];
  }

  // ---------------------------------------------------------------- the set after k steps

  /** The old set without the first k removal chunks, with the first k addition chunks. */
  function MidKeys(m: RollkitMigration, vals: seq<PubKey>, k: nat): set<PubKey> {
    var rem, add := Removals(m, vals), Additions(m, vals);
    Elems(vals) - Elems(rem[..Covered(|rem|, k)]) + Elems(add[..Covered(|add|, k)])
  }

  lemma StepApplies(m: RollkitMigration, vals: seq<PubKey>, k: nat, p: Powers)
    requires InBounds(|Removals(m, vals)|, k) && InBounds(|Additions(m, vals)|, k)
    requires if k == 0 then p.Keys == Elems(vals) else p == Uniform(MidKeys(m, vals, k))
    ensures Apply(p, SmoothUpdates(m, vals, k)) == Uniform(MidKeys(m, vals, k + 1))
  {
    var gone, added := Chunk(Removals(m, vals), k), Chunk(Additions(m, vals), k);
    MovedApplies(p, gone, added);
    KeysAfterStep(m, vals, k);
    if k == 0 {
      MidKeysAtZero(m, vals);
      FirstStepApplies(p, vals, gone, added, MidKeys(m, vals, k + 1));
    } else {
      UniformMove(MidKeys(m, vals, k), Elems(gone), Elems(added));
    }
  }

  lemma FirstStepApplies(p: Powers, vals: seq<PubKey>, gone: seq<PubKey>, added: seq<PubKey>, next: set<PubKey>)
    requires p.Keys == Elems(vals) && next == Elems(vals) - Elems(gone) + Elems(added)
    ensures var moved := Zeros(gone) + Ones(added);
            Apply(p, moved + Ones(Without(vals, Elems(Keys(moved))))) == Uniform(next)
  {
    var moved := Zeros(gone) + Ones(added);
    var rest := Without(vals, Elems(Keys(moved)));
    var p1 := p - Elems(gone) + Uniform(Elems(added));
    MovedApplies(p, gone, added);
    KeysOfMoved(gone, added);
    ApplyAppend(p, moved, Ones(rest));
    ApplyOnes(p1, rest);
    EqualiseAll(p, gone, added, rest, next);
  }

  /** Behind the last smoothed step all have moved: attesters are exactly in, a new sequencer still waits. */
  lemma BeforeClosing(m: RollkitMigration, vals: seq<PubKey>)
    ensures MidKeys(m, vals, SMOOTHING)
         == if m.attesters != [] then Elems(m.attesters) else Elems(vals) * {m.sequencer}
  {
    var rem, add := Removals(m, vals), Additions(m, vals);
    PerStepBounds(|rem|);
    PerStepBounds(|add|);
    assert rem[..Covered(|rem|, SMOOTHING)] == rem && add[..Covered(|add|, SMOOTHING)] == add;
  }

  lemma MovedApplies(p: Powers, gone: seq<PubKey>, added: seq<PubKey>)
    ensures Apply(p, Zeros(gone) + Ones(added)) == p - Elems(gone) + Uniform(Elems(added))
  {
    ApplyAppend(p, Zeros(gone), Ones(added));
    ApplyZeros(p, gone);
    ApplyOnes(p - Elems(gone), added);
  }

  lemma UniformMove(keys: set<PubKey>, gone: set<PubKey>, added: set<PubKey>)
    ensures Uniform(keys) - gone + Uniform(added) == Uniform(keys - gone + added)
  {
  }

  lemma EqualiseAll(p: Powers, gone: seq<PubKey>, added: seq<PubKey>, rest: seq<PubKey>, next: set<PubKey>)
    requires (p - Elems(gone) + Uniform(Elems(added))).Keys == next
    requires Elems(rest) == p.Keys - (Elems(gone) + Elems(added))
    ensures p - Elems(gone) + Uniform(Elems(added)) + Uniform(Elems(rest)) == Uniform(next)
  {
    var q := p - Elems(gone) + Uniform(Elems(added)) + Uniform(Elems(rest));
    assert q.Keys == next;
    forall x | x in next ensures q[x] == 1 {
      assert x in Elems(added) || x in Elems(rest);
    }
  }

  lemma MidKeysAtZero(m: RollkitMigration, vals: seq<PubKey>)
    ensures MidKeys(m, vals, 0) == Elems(vals)
  {
    assert Removals(m, vals)[..0] == [] && Additions(m, vals)[..0] == [];
  }

  lemma KeysOfMoved(gone: seq<PubKey>, added: seq<PubKey>)
    ensures Elems(Keys(Zeros(gone) + Ones(added))) == Elems(gone) + Elems(added)
  {
    var ks := Keys(Zeros(gone) + Ones(added));
    assert ks == gone + added;
  }

  /** Removed keys are validators, added keys are not. */
  lemma TakeDisjoint(m: RollkitMigration, vals: seq<PubKey>)
    ensures Elems(Removals(m, vals)) <= Elems(vals)
    ensures Elems(Additions(m, vals)) !! Elems(vals)
  {
  }

  lemma KeysAfterStep(m: RollkitMigration, vals: seq<PubKey>, k: nat)
    requires InBounds(|Removals(m, vals)|, k) && InBounds(|Additions(m, vals)|, k)
    ensures MidKeys(m, vals, k + 1)
         == MidKeys(m, vals, k) - Elems(Chunk(Removals(m, vals), k)) + Elems(Chunk(Additions(m, vals), k))
  {
    var rem, add := Removals(m, vals), Additions(m, vals);
    TakeChunk(rem, k);
    TakeChunk(add, k);
    ElemsAppend(rem[..Covered(|rem|, k)], Chunk(rem, k));
    ElemsAppend(add[..Covered(|add|, k)], Chunk(add, k));
    assert Elems(Chunk(rem, k)) <= Elems(vals);
    assert Elems(add[..Covered(|add|, k)]) <= Elems(add);
    TakeDisjoint(m, vals);
  }

  lemma ElemsAppend(xs: seq<PubKey>, ys: seq<PubKey>)
    ensures Elems(xs + ys) == Elems(xs) + Elems(ys)
  {
  }

  lemma FinalApplies(m: RollkitMigration, vals: seq<PubKey>, p: Powers)
    requires p.Keys <= Elems(vals) + Elems(Targets(m))
    ensures Apply(p, FinalUpdates(m, vals)) == Uniform(Elems(Targets(m)))
  {
    var gone := Removals(m, vals);
    ApplyAppend(p, Zeros(gone), Ones(Targets(m)));
    ApplyZeros(p, gone);
    ApplyOnes(p - Elems(gone), Targets(m));
    assert Elems(gone) == Elems(vals) - Elems(Targets(m));
    OnlyTargets(p, Elems(gone), Elems(Targets(m)));
  }

  lemma OnlyTargets(p: Powers, gone: set<PubKey>, targets: set<PubKey>)
    requires p.Keys <= gone + targets
    ensures p - gone + Uniform(targets) == Uniform(targets)
  {
  }

  // ---------------------------------------------------------------- whole runs

  /** A chain that executes blocks, was halted by PreBlocker, or failed in EndBlock. */
  datatype Chain =
    | Running(store: Store, powers: Powers)
    | Halted(store: Store, powers: Powers)
    | Failed

  function Block(c: Chain, height: int64, ibc: bool, vals: seq<PubKey>): Chain {
    if !c.Running? then c
    else
      var (st, halt) := PreBlockerSpec(c.store, height, ibc);
      if halt then Halted(st, c.powers)
      else
        var (st', r) := EndBlockSpec(st, height, ibc, vals);
        if r.Err? then Failed else Running(st', Apply(c.powers, r.value))
  }

  /** The blocks at heights from, from + 1, ..., from + n - 1. */
  function Run(c: Chain, from: nat, n: nat, ibc: bool, vals: seq<PubKey>): Chain
    requires from + n <= TWO_63
  {
    if n == 0 then c else Block(Run(c, from, n - 1, ibc, vals), from + n - 1, ibc, vals)
  }

  predicate StepOk(m: RollkitMigration, vals: seq<PubKey>, k: nat) {
    MovedOrFailure(m, vals, k).Ok? && (k == 0 ==> Decodable(vals))
  }

  predicate StepsOk(m: RollkitMigration, vals: seq<PubKey>, k: nat) {
    forall j :: 0 <= j < k ==> StepOk(m, vals, j)
  }

  /** What a caller can check before opening the migration. */
  predicate Completes(m: RollkitMigration, vals: seq<PubKey>) {
    && (SMOOTHING - 1) * PerStep(|Removals(m, vals)|) <= |Removals(m, vals)|
    && (SMOOTHING - 1) * PerStep(|Additions(m, vals)|) <= |Additions(m, vals)|
    && Decodable(Targets(m)) && Decodable(vals)
  }

  lemma CompletesExactly(m: RollkitMigration, vals: seq<PubKey>)
    ensures Completes(m, vals) <==> StepsOk(m, vals, SMOOTHING) && Decodable(Targets(m))
  {
    var rem, add := Removals(m, vals), Additions(m, vals);
    ChunkBound(|rem|);
    ChunkBound(|add|);
    if Completes(m, vals) {
      forall j | 0 <= j < SMOOTHING ensures StepOk(m, vals, j) {
        assert InBounds(|rem|, j) && InBounds(|add|, j);
        KeysDecodable(m, vals);
        ChunkDecodable(rem, j);
        ChunkDecodable(add, j);
      }
    } else if StepsOk(m, vals, SMOOTHING) {
      assert StepOk(m, vals, 0) && StepOk(m, vals, SMOOTHING - 1);
    }
  }

  /** What is removed are validators, what is added are attesters. */
  lemma KeysDecodable(m: RollkitMigration, vals: seq<PubKey>)
    ensures Decodable(vals) ==> Decodable(Removals(m, vals))
    ensures Decodable(Targets(m)) ==> Decodable(Additions(m, vals))
  {
    var rem, add := Removals(m, vals), Additions(m, vals);
    forall i | Decodable(vals) && 0 <= i < |rem| ensures rem[i].decodable { assert rem[i] in vals; }
    forall i | Decodable(Targets(m)) && 0 <= i < |add| ensures add[i].decodable { assert add[i] in m.attesters; }
  }

  lemma SliceDecodable(xs: seq<PubKey>, a: nat, b: nat)
    requires Decodable(xs) && a <= b <= |xs|
    ensures Decodable(xs[a..b])
  {
  }

  lemma ChunkDecodable(xs: seq<PubKey>, k: nat)
    requires Decodable(xs) && InBounds(|xs|, k)
    ensures Decodable(Chunk(xs, k))
  {
    var a := k * PerStep(|xs|);
    SliceDecodable(xs, a, Min(a + PerStep(|xs|), |xs|));
  }

  /** The chain after k blocks of the smoothed window, as a closed formula. */
  function AfterWindow(st: Store, p: Powers, m: RollkitMigration, vals: seq<PubKey>, k: nat): Chain
    requires k <= SMOOTHING + 2
  {
    if k == 0 then Running(st, p)
    else if k <= SMOOTHING then
      if StepsOk(m, vals, k)
      then Running(st.(step := Some(k)), Uniform(MidKeys(m, vals, k)))
      else Failed
    else if StepsOk(m, vals, SMOOTHING) && Decodable(Targets(m)) then
      var done, target := st.(step := None, sequencer := Some(m.sequencer)), Uniform(Elems(Targets(m)));
      if k == SMOOTHING + 1 then Running(done, target) else Halted(done.(migration := None), target)
    else Failed
  }

  /** How many blocks the window has behind its first one. */
  function Length(ibc: bool): nat {
    if ibc then SMOOTHING else 1
  }

  /**
   The height PreBlocker halts at: one above the end of the window, both in uint64 arithmetic.
   An end of 0 never halts.
   */
  function HaltHeight(m: RollkitMigration, ibc: bool): Option<nat> {
    var next := m.blockHeight + Length(ibc) + 1;
    if next < TWO_64 then Some(next)
    else if next == TWO_64 + 1 then None
    else Some(next - TWO_64)
  }

  lemma HaltsAt(m: RollkitMigration, ibc: bool, height: nat, end: uint64)
    requires height < TWO_63 && end == Uint64(m.blockHeight + Length(ibc))
    ensures end > 0 && Uint64(end + 1) == height <==> HaltHeight(m, ibc) == Some(height)
  {
    Wraps(m.blockHeight + Length(ibc));
    Wraps(end + 1);
  }

  lemma OpenAt(m: RollkitMigration, ibc: bool, height: nat, end: uint64)
    requires height < TWO_63 && end == Uint64(m.blockHeight + Length(ibc))
    ensures m.blockHeight <= height <= end <==> m.blockHeight <= height <= m.blockHeight + Length(ibc)
  {
    Wraps(m.blockHeight + Length(ibc));
  }

  /** The window arithmetic, for every start height a message may carry. */
  lemma Window(st: Store, m: RollkitMigration, height: nat, ibc: bool)
    requires st.migration == Some(m) && height < TWO_63
    ensures IsMigrating(st, height, ibc).0 == m.blockHeight
    ensures IsMigrating(st, height, ibc).2 <==> m.blockHeight <= height <= m.blockHeight + Length(ibc)
    ensures PreBlockerSpec(st, height, ibc)
         == if HaltHeight(m, ibc) == Some(height) then (st.(migration := None), true) else (st, false)
  {
    var end := Uint64(m.blockHeight + Length(ibc));
    HaltsAt(m, ibc, height, end);
    OpenAt(m, ibc, height, end);
  }

  lemma BlockOutside(st: Store, p: Powers, m: RollkitMigration, height: nat, ibc: bool, vals: seq<PubKey>)
    requires st.migration == Some(m) && height < TWO_63 && height < m.blockHeight
    requires HaltHeight(m, ibc) != Some(height)
    ensures Block(Running(st, p), height, ibc, vals) == Running(st, p)
  {
    Window(st, m, height, ibc);
    assert EndBlockSpec(st, height, ibc, vals) == (st, Ok([]));
    assert Apply(p, []) == p;
  }

  lemma BlockInside(st: Store, p: Powers, m: RollkitMigration, height: nat, ibc: bool, vals: seq<PubKey>)
    requires st.migration == Some(m) && m.blockHeight <= height <= m.blockHeight + Length(ibc) && height < TWO_63
    ensures var step := if ibc then MigrateOverSpec(st, m, vals) else MigrateNowSpec(st, m, vals);
            Block(Running(st, p), height, ibc, vals)
              == if step.1.Err? then Failed else Running(step.0, Apply(p, step.1.value))
  {
    Window(st, m, height, ibc);
  }

  lemma BlockAfter(st: Store, p: Powers, m: RollkitMigration, height: nat, ibc: bool, vals: seq<PubKey>)
    requires st.migration == Some(m) && height == m.blockHeight + Length(ibc) + 1 < TWO_63
    ensures Block(Running(st, p), height, ibc, vals) == Halted(st.(migration := None), p)
  {
    Window(st, m, height, ibc);
  }

  /** Before the start height nothing happens. */
  lemma {:induction false} IdleBefore(st: Store, p: Powers, m: RollkitMigration, vals: seq<PubKey>,
                                      ibc: bool, from: nat, n: nat)
    requires st.migration == Some(m) && from + n <= m.blockHeight <= TWO_63
    ensures Run(Running(st, p), from, n, ibc, vals) == Running(st, p)
  {
    if n > 0 {
      var n0, c := n - 1, Running(st, p);
      IdleBefore(st, p, m, vals, ibc, from, n0);
      BlockOutside(st, p, m, from + n0, ibc, vals);
      RunOn(c, from, n0, n, from + n0, ibc, vals, c, c);
    }
  }

  lemma SmoothStep(st: Store, m: RollkitMigration, vals: seq<PubKey>, k: nat)
    requires st.step == if k == 0 then None else Some(k)
    requires k < SMOOTHING
    ensures var step := MigrateOverSpec(st, m, vals);
            if StepOk(m, vals, k)
            then step == (st.(step := Some(k + 1)), Ok(SmoothUpdates(m, vals, k)))
            else step.1.Err?
  {
  }

  lemma ClosingStep(st: Store, m: RollkitMigration, vals: seq<PubKey>)
    requires st.step == Some(SMOOTHING)
    ensures var step := MigrateOverSpec(st, m, vals);
            if FinalOk(m, vals)
            then step == (st.(step := None, sequencer := Some(m.sequencer)), Ok(FinalUpdates(m, vals)))
            else step.1.Err?
  {
  }

  /** A smoothed block of the window, from the set any k earlier ones leave. */
  lemma SmoothBlock(st: Store, p: Powers, m: RollkitMigration, vals: seq<PubKey>, k: nat)
    requires st.migration == Some(m) && m.blockHeight + k < TWO_63 && k < SMOOTHING
    requires st.step == if k == 0 then None else Some(k)
    requires if k == 0 then p.Keys == Elems(vals) else p == Uniform(MidKeys(m, vals, k))
    ensures Block(Running(st, p), m.blockHeight + k, true, vals)
         == if StepOk(m, vals, k)
            then Running(st.(step := Some(k + 1)), Uniform(MidKeys(m, vals, k + 1)))
            else Failed
  {
    BlockInside(st, p, m, m.blockHeight + k, true, vals);
    SmoothStep(st, m, vals, k);
    if StepOk(m, vals, k) {
      StepApplies(m, vals, k, p);
    }
  }

  lemma ClosingBlock(st: Store, m: RollkitMigration, vals: seq<PubKey>)
    requires st.migration == Some(m) && m.blockHeight + SMOOTHING < TWO_63
    requires st.step == Some(SMOOTHING) && Decodable(vals)
    ensures Block(Running(st, Uniform(MidKeys(m, vals, SMOOTHING))), m.blockHeight + SMOOTHING, true, vals)
         == if Decodable(Targets(m))
            then Running(st.(step := None, sequencer := Some(m.sequencer)), Uniform(Elems(Targets(m))))
            else Failed
  {
    var p := Uniform(MidKeys(m, vals, SMOOTHING));
    BlockInside(st, p, m, m.blockHeight + SMOOTHING, true, vals);
    ClosingStep(st, m, vals);
    KeysDecodable(m, vals);
    MidWithin(m, vals, SMOOTHING);
    FinalApplies(m, vals, p);
  }

  lemma StepsOkNext(m: RollkitMigration, vals: seq<PubKey>, k: nat)
    ensures StepsOk(m, vals, k + 1) <==> StepsOk(m, vals, k) && StepOk(m, vals, k)
  {
  }

  lemma MidWithin(m: RollkitMigration, vals: seq<PubKey>, k: nat)
    ensures MidKeys(m, vals, k) <= Elems(vals) + Elems(Targets(m))
  {
    var add := Additions(m, vals);
    assert Elems(add[..Covered(|add|, k)]) <= Elems(add);
    assert Elems(add) <= Elems(Targets(m));
  }

  lemma SmoothWindowStep(st: Store, p: Powers, m: RollkitMigration, vals: seq<PubKey>, k: nat, k': nat, height: nat)
    requires st.migration == Some(m)
    requires k < SMOOTHING && k' == k + 1 && height == m.blockHeight + k < TWO_63
    requires st.step == None && p.Keys == Elems(vals)
    ensures Block(AfterWindow(st, p, m, vals, k), height, true, vals) == AfterWindow(st, p, m, vals, k')
  {
    var c := AfterWindow(st, p, m, vals, k);
    StepsOkNext(m, vals, k);
    if c.Running? {
      SmoothBlock(c.store, c.powers, m, vals, k);
    }
  }

  lemma ClosingWindowStep(st: Store, p: Powers, m: RollkitMigration, vals: seq<PubKey>, height: nat)
    requires st.migration == Some(m) && height == m.blockHeight + SMOOTHING < TWO_63
    ensures Block(AfterWindow(st, p, m, vals, SMOOTHING), height, true, vals)
         == AfterWindow(st, p, m, vals, SMOOTHING + 1)
  {
    var c := AfterWindow(st, p, m, vals, SMOOTHING);
    if c.Running? {
      assert StepOk(m, vals, 0);
      ClosingBlock(c.store, m, vals);
    }
  }

  lemma HaltStep(st: Store, p: Powers, m: RollkitMigration, vals: seq<PubKey>, height: nat)
    requires st.migration == Some(m) && height == m.blockHeight + SMOOTHING + 1 < TWO_63
    ensures Block(AfterWindow(st, p, m, vals, SMOOTHING + 1), height, true, vals)
         == AfterWindow(st, p, m, vals, SMOOTHING + 2)
  {
    var c := AfterWindow(st, p, m, vals, SMOOTHING + 1);
    if c.Running? {
      BlockAfter(c.store, c.powers, m, height, true, vals);
    }
  }

  lemma WindowStep(st: Store, p: Powers, m: RollkitMigration, vals: seq<PubKey>, k: nat, k': nat, height: nat)
    requires st.migration == Some(m)
    requires k <= SMOOTHING + 1 && k' == k + 1 && height == m.blockHeight + k < TWO_63
    requires st.step == None && p.Keys == Elems(vals)
    ensures Block(AfterWindow(st, p, m, vals, k), height, true, vals) == AfterWindow(st, p, m, vals, k')
  {
    if k < SMOOTHING {
      SmoothWindowStep(st, p, m, vals, k, k', height);
    } else if k == SMOOTHING {
      ClosingWindowStep(st, p, m, vals, height);
    } else {
      HaltStep(st, p, m, vals, height);
    }
  }

  lemma RunLast(c: Chain, from: nat, n: nat, ibc: bool, vals: seq<PubKey>)
    requires n > 0 && from + n <= TWO_63
    ensures Run(c, from, n, ibc, vals) == Block(Run(c, from, n - 1, ibc, vals), from + n - 1, ibc, vals)
  {
  }

  lemma RunOn(c: Chain, from: nat, n: nat, n': nat, height: nat, ibc: bool, vals: seq<PubKey>,
              mid: Chain, next: Chain)
    requires n' == n + 1 && height == from + n < TWO_63
    requires Run(c, from, n, ibc, vals) == mid && Block(mid, height, ibc, vals) == next
    ensures Run(c, from, n', ibc, vals) == next
  {
    RunLast(c, from, n', ibc, vals);
    assert n' - 1 == n && from + n' - 1 == height;
  }

  lemma MidStep(st: Store, p: Powers, m: RollkitMigration, vals: seq<PubKey>,
                now: nat, k: nat, k': nat, n: nat, n': nat)
    requires st.migration == Some(m) && st.step == None && p.Keys == Elems(vals)
    requires now <= m.blockHeight && k <= SMOOTHING + 1 && now + n' <= TWO_63
    requires n == m.blockHeight - now + k && n' == n + 1 && k' == k + 1
    requires Run(Running(st, p), now, n, true, vals) == AfterWindow(st, p, m, vals, k)
    ensures Run(Running(st, p), now, n', true, vals) == AfterWindow(st, p, m, vals, k')
  {
    var height := now + n;
    WindowStep(st, p, m, vals, k, k', height);
    RunOn(Running(st, p), now, n, n', height, true, vals,
          AfterWindow(st, p, m, vals, k), AfterWindow(st, p, m, vals, k'));
  }

  /** Every step of the smoothed window, from any height at which the migration is stored. */
  lemma {:induction false} MidMigration(st: Store, p: Powers, m: RollkitMigration, vals: seq<PubKey>,
                                        now: nat, k: nat, n: nat)
    requires st.migration == Some(m) && st.step == None && p.Keys == Elems(vals)
    requires now <= m.blockHeight && k <= SMOOTHING + 2 && now + n <= TWO_63
    requires n == m.blockHeight - now + k
    ensures Run(Running(st, p), now, n, true, vals) == AfterWindow(st, p, m, vals, k)
  {
    if k == 0 {
      IdleBefore(st, p, m, vals, true, now, n);
    } else {
      var before, n0 := k - 1, n - 1;
      MidMigration(st, p, m, vals, now, before, n0);
      MidStep(st, p, m, vals, now, before, k, n0, n);
    }
  }

  /**
   With IBC the window ends in the target set, every member at power 1, exactly when both
   chunk bounds hold and every target key is readable; otherwise EndBlock fails on the way.
   The block after a completed window is halted and takes the migration off the store.
   */
  lemma WholeWindow(st: Store, p: Powers, m: RollkitMigration, vals: seq<PubKey>, now: nat, n: nat, n': nat)
    requires st.migration == Some(m) && st.step == None && p.Keys == Elems(vals)
    requires now <= m.blockHeight && now + n' <= TWO_63
    requires n == m.blockHeight - now + SMOOTHING + 1 && n' == n + 1
    ensures var end := Run(Running(st, p), now, n, true, vals);
            var next := Run(Running(st, p), now, n', true, vals);
            if Completes(m, vals) then
              && end == Running(Store(Some(m), None, Some(m.sequencer)), Uniform(Elems(Targets(m))))
              && next == Halted(Store(None, None, Some(m.sequencer)), Uniform(Elems(Targets(m))))
            else
              end == Failed && next == Failed
  {
    MidMigration(st, p, m, vals, now, SMOOTHING + 1, n);
    MidMigration(st, p, m, vals, now, SMOOTHING + 2, n');
    CompletesExactly(m, vals);
  }

  lemma BlockWithoutIBC(st: Store, p: Powers, m: RollkitMigration, vals: seq<PubKey>, height: nat)
    requires st.migration == Some(m) && p.Keys <= Elems(vals) + Elems(Targets(m))
    requires m.blockHeight <= height <= m.blockHeight + 1 && height < TWO_63
    ensures Block(Running(st, p), height, false, vals)
         == if FinalOk(m, vals)
            then Running(st.(sequencer := Some(m.sequencer)), Uniform(Elems(Targets(m))))
            else Failed
  {
    BlockInside(st, p, m, height, false, vals);
    FinalApplies(m, vals, p);
  }

  /** The chain k blocks into a window without IBC. */
  function AfterWithoutIBC(st: Store, p: Powers, m: RollkitMigration, vals: seq<PubKey>, k: nat): Chain {
    var done, target := st.(sequencer := Some(m.sequencer)), Uniform(Elems(Targets(m)));
    if k == 0 then Running(st, p)
    else if !FinalOk(m, vals) then Failed
    else if k <= 2 then Running(done, target)
    else Halted(done.(migration := None), target)
  }

  lemma WithoutIBCStep(st: Store, p: Powers, m: RollkitMigration, vals: seq<PubKey>, k: nat, k': nat, height: nat)
    requires st.migration == Some(m) && p.Keys == Elems(vals)
    requires k <= 2 && k' == k + 1 && height == m.blockHeight + k < TWO_63
    ensures Block(AfterWithoutIBC(st, p, m, vals, k), height, false, vals) == AfterWithoutIBC(st, p, m, vals, k')
  {
    var c := AfterWithoutIBC(st, p, m, vals, k);
    if c.Running? {
      if k <= 1 {
        BlockWithoutIBC(c.store, c.powers, m, vals, height);
      } else {
        BlockAfter(c.store, c.powers, m, height, false, vals);
      }
    }
  }

  lemma WithoutIBCOn(st: Store, p: Powers, m: RollkitMigration, vals: seq<PubKey>,
                     now: nat, k: nat, k': nat, n: nat, n': nat)
    requires st.migration == Some(m) && p.Keys == Elems(vals)
    requires now <= m.blockHeight && k <= 2 && now + n' <= TWO_63
    requires n == m.blockHeight - now + k && n' == n + 1 && k' == k + 1
    requires Run(Running(st, p), now, n, false, vals) == AfterWithoutIBC(st, p, m, vals, k)
    ensures Run(Running(st, p), now, n', false, vals) == AfterWithoutIBC(st, p, m, vals, k')
  {
    WithoutIBCStep(st, p, m, vals, k, k', now + n);
    RunOn(Running(st, p), now, n, n', now + n, false, vals,
          AfterWithoutIBC(st, p, m, vals, k), AfterWithoutIBC(st, p, m, vals, k'));
  }

  /**
   Without IBC the change sets of two consecutive blocks each leave exactly the target set,
   an unreadable key among them fails the first, and the third block is halted with the migration off the store.
   */
  lemma {:induction false} WindowWithoutIBC(st: Store, p: Powers, m: RollkitMigration, vals: seq<PubKey>,
                                            now: nat, k: nat, n: nat)
    requires st.migration == Some(m) && p.Keys == Elems(vals)
    requires now <= m.blockHeight && k <= 3 && now + n <= TWO_63
    requires n == m.blockHeight - now + k
    ensures Run(Running(st, p), now, n, false, vals) == AfterWithoutIBC(st, p, m, vals, k)
  {
    if k == 0 {
      IdleBefore(st, p, m, vals, false, now, n);
    } else {
      var before, n0 := k - 1, n - 1;
      WindowWithoutIBC(st, p, m, vals, now, before, n0);
      WithoutIBCOn(st, p, m, vals, now, before, k, n0, n);
    }
  }

  /** The blocks from, ..., from + n - 1 include this height. */
  predicate Passed(height: Option<nat>, from: nat, n: nat) {
    height.Some? && from <= height.value < from + n
  }

  /** The chain n blocks after `now`, with a start height no block can reach. */
  function AfterFar(st: Store, p: Powers, m: RollkitMigration, ibc: bool, now: nat, n: nat): Chain {
    if Passed(HaltHeight(m, ibc), now, n) then Halted(st.(migration := None), p) else Running(st, p)
  }

  lemma FarStep(st: Store, p: Powers, m: RollkitMigration, vals: seq<PubKey>, ibc: bool,
                now: nat, n: nat, n': nat, height: nat)
    requires st.migration == Some(m) && m.blockHeight >= TWO_63
    requires n' == n + 1 && height == now + n < TWO_63
    ensures Block(AfterFar(st, p, m, ibc, now, n), height, ibc, vals) == AfterFar(st, p, m, ibc, now, n')
  {
    if !Passed(HaltHeight(m, ibc), now, n) {
      if HaltHeight(m, ibc) == Some(height) {
        Window(st, m, height, ibc);
      } else {
        BlockOutside(st, p, m, height, ibc, vals);
      }
    }
  }

  /**
   A start height no block can reach. The window never opens, but its end may have wrapped
   around: then the chain halts at a small height, the migration is gone, and nobody was moved.
   */
  lemma {:induction false} FarMigration(st: Store, p: Powers, m: RollkitMigration, vals: seq<PubKey>, ibc: bool,
                                        now: nat, n: nat)
    requires st.migration == Some(m) && m.blockHeight >= TWO_63 && now + n <= TWO_63
    ensures Run(Running(st, p), now, n, ibc, vals) == AfterFar(st, p, m, ibc, now, n)
  {
    if n > 0 {
      var n0 := n - 1;
      FarMigration(st, p, m, vals, ibc, now, n0);
      FarStep(st, p, m, vals, ibc, now, n0, n, now + n0);
      RunOn(Running(st, p), now, n0, n, now + n0, ibc, vals,
            AfterFar(st, p, m, ibc, now, n0), AfterFar(st, p, m, ibc, now, n));
    }
  }

  /** Started at height 20 with a start height of 2^64 - 5: block 26 halts the chain before anything has moved. */
  lemma EarlyHalt(p: Powers, m: RollkitMigration, vals: seq<PubKey>)
    requires m.blockHeight == TWO_64 - 5
    ensures Run(Running(Store(Some(m), None, None), p), 20, 6, true, vals) == Running(Store(Some(m), None, None), p)
    ensures Run(Running(Store(Some(m), None, None), p), 20, 7, true, vals) == Halted(Store(None, None, None), p)
  {
    FarMigration(Store(Some(m), None, None), p, m, vals, true, 20, 6);
    FarMigration(Store(Some(m), None, None), p, m, vals, true, 20, 7);
  }

  /** Restarting after the halt: with no stored migration the blocks change nothing and halt nothing. */
  lemma {:induction false} QuietAfterHalt(st: Store, p: Powers, vals: seq<PubKey>, ibc: bool, from: nat, n: nat)
    requires st.migration == None && from + n <= TWO_63
    ensures Run(Running(st, p), from, n, ibc, vals) == Running(st, p)
  {
    if n > 0 {
      QuietAfterHalt(st, p, vals, ibc, from, n - 1);
    }
  }

  // ---------------------------------------------------------------- the set is never empty

  /** On the way the set runs empty exactly when a newcomer sequencer waits and everybody has left. */
  lemma NeverEmpty(m: RollkitMigration, vals: seq<PubKey>, k: nat)
    requires 1 <= k <= SMOOTHING && vals != [] && Distinct(vals)
    ensures MidKeys(m, vals, k) == {} <==>
              m.attesters == [] && m.sequencer !in vals && k * PerStep(|vals|) >= |vals|
  {
    var rem, add := Removals(m, vals), Additions(m, vals);
    assert Elems(rem[..Covered(|rem|, k)]) <= Elems(rem);
    if m.attesters != [] {
      var a := m.attesters[0];
      if a in vals {
        assert a !in rem;
        assert a in MidKeys(m, vals, k);
      } else {
        assert a in add;
        MulMonotone(1, k, PerStep(|add|));
        assert Covered(|add|, k) >= 1;
        assert add[0] in add[..Covered(|add|, k)];
        assert add[0] in MidKeys(m, vals, k);
      }
    } else {
      assert Elems(Targets(m)) == {m.sequencer};
      if m.sequencer in vals {
        assert m.sequencer in MidKeys(m, vals, k);
      } else {
        WithoutNothing(vals, {m.sequencer});
        assert rem == vals;
        if k * PerStep(|vals|) < |vals| {
          var next := vals[k * PerStep(|vals|)];
          assert next !in vals[..k * PerStep(|vals|)];
          assert next in MidKeys(m, vals, k);
        } else {
          assert rem[..Covered(|rem|, k)] == vals;
        }
      }
    }
  }

  lemma {:induction false} WithoutNothing(xs: seq<PubKey>, ys: set<PubKey>)
    requires forall x :: x in xs ==> x !in ys
    ensures Without(xs, ys) == xs
  {
    if xs != [] {
      var front, last := xs[..|xs| - 1], xs[|xs| - 1];
      assert last in xs;
      WithoutNothing(front, ys);
      assert xs == front + [last];
    }
  }

  // ---------------------------------------------------------------- shape of the change sets

  lemma AppendDistinct(xs: seq<PubKey>, ys: seq<PubKey>)
    requires Distinct(xs) && Distinct(ys) && Elems(xs) !! Elems(ys)
    ensures Distinct(xs + ys)
  {
    forall i, j | 0 <= i < j < |xs + ys| ensures (xs + ys)[i] != (xs + ys)[j] {
      if i < |xs| <= j {
        assert xs[i] in Elems(xs) && ys[j - |xs|] in Elems(ys);
      }
    }
  }

  lemma SliceDistinct(xs: seq<PubKey>, a: nat, b: nat)
    requires Distinct(xs) && a <= b <= |xs|
    ensures Distinct(xs[a..b]) && Elems(xs[a..b]) <= Elems(xs)
  {
  }

  lemma ChunkDistinct(xs: seq<PubKey>, k: nat)
    requires Distinct(xs) && InBounds(|xs|, k)
    ensures Distinct(Chunk(xs, k)) && Elems(Chunk(xs, k)) <= Elems(xs)
  {
    var a := k * PerStep(|xs|);
    SliceDistinct(xs, a, Min(a + PerStep(|xs|), |xs|));
  }

  lemma FinalKeys(m: RollkitMigration, vals: seq<PubKey>)
    ensures Keys(FinalUpdates(m, vals)) == Removals(m, vals) + Targets(m)
  {
  }

  lemma FinalDistinct(m: RollkitMigration, vals: seq<PubKey>)
    requires Distinct(vals) && Distinct(m.attesters)
    ensures Distinct(Keys(FinalUpdates(m, vals)))
  {
    assert Elems(Removals(m, vals)) !! Elems(Targets(m));
    AppendDistinct(Removals(m, vals), Targets(m));
    FinalKeys(m, vals);
  }

  lemma MovedDistinct(gone: seq<PubKey>, added: seq<PubKey>, vals: seq<PubKey>)
    requires Distinct(gone) && Distinct(added) && Elems(gone) !! Elems(added) && Distinct(vals)
    ensures var moved := Zeros(gone) + Ones(added);
            && Distinct(Keys(moved))
            && Distinct(Keys(moved + Ones(Without(vals, Elems(Keys(moved))))))
  {
    var moved := Zeros(gone) + Ones(added);
    AppendDistinct(gone, added);
    assert Keys(moved) == gone + added;
    var rest := Without(vals, Elems(Keys(moved)));
    AppendDistinct(Keys(moved), rest);
    assert Keys(moved + Ones(rest)) == Keys(moved) + rest;
  }

  /** Each change set names a key at most once, the step-0 equalising pass included. */
  lemma ChangeSetsDistinct(m: RollkitMigration, vals: seq<PubKey>, k: nat)
    requires Distinct(vals) && Distinct(m.attesters)
    ensures Distinct(Keys(FinalUpdates(m, vals)))
    ensures StepOk(m, vals, k) ==> Distinct(Keys(SmoothUpdates(m, vals, k)))
  {
    FinalDistinct(m, vals);
    var rem, add := Removals(m, vals), Additions(m, vals);
    if StepOk(m, vals, k) {
      ChunkDistinct(rem, k);
      ChunkDistinct(add, k);
      TakeDisjoint(m, vals);
      MovedDistinct(Chunk(rem, k), Chunk(add, k), vals);
    }
  }

  /** With distinct validators, a repeated attester is the only way to name a key twice in the closing change set. */
  lemma FinalDistinctExactly(m: RollkitMigration, vals: seq<PubKey>)
    requires Distinct(vals)
    ensures Distinct(Keys(FinalUpdates(m, vals))) <==> Distinct(m.attesters)
  {
    var rem := Removals(m, vals);
    var ks := Keys(FinalUpdates(m, vals));
    FinalKeys(m, vals);
    if Distinct(m.attesters) {
      FinalDistinct(m, vals);
    } else {
      var i, j :| 0 <= i < j < |m.attesters| && m.attesters[i] == m.attesters[j];
      assert ks[|rem| + i] == ks[|rem| + j];
    }
  }

  /** Every removal of a change set names a key that is in the set. */
  predicate RemovesMembersOnly(p: Powers, us: seq<ValidatorUpdate>) {
    forall i :: 0 <= i < |us| && us[i].power == 0 ==> us[i].key in p
  }

  /** The smoothed steps remove members only. */
  lemma RemovalsNameMembers(m: RollkitMigration, vals: seq<PubKey>, k: nat)
    requires Distinct(vals) && StepOk(m, vals, k)
    ensures RemovesMembersOnly(Uniform(MidKeys(m, vals, k)), SmoothUpdates(m, vals, k))
  {
    var rem := Removals(m, vals);
    var us := SmoothUpdates(m, vals, k);
    CoveredStep(|rem|, k);
    forall i | 0 <= i < |us| && us[i].power == 0 ensures us[i].key in MidKeys(m, vals, k) {
      var key := us[i].key;
      assert i < |Chunk(rem, k)| && key == rem[k * PerStep(|rem|) + i];
      assert key in rem && key !in rem[..Covered(|rem|, k)];
    }
  }

  /**
   The closing change set repeats every removal of the window, so it names members only
   exactly when there was nobody to remove.
   */
  lemma ClosingRepeatsRemovals(m: RollkitMigration, vals: seq<PubKey>)
    ensures RemovesMembersOnly(Uniform(MidKeys(m, vals, SMOOTHING)), FinalUpdates(m, vals)) <==>
              Elems(vals) <= Elems(Targets(m))
  {
    var rem := Removals(m, vals);
    var end, fs := MidKeys(m, vals, SMOOTHING), FinalUpdates(m, vals);
    if rem == [] {
      assert forall v :: v in vals ==> v in Targets(m) || v in rem;
    } else {
      NobodyLeft(m, vals);
      assert rem[0] in rem && rem[0] in vals && rem[0] !in Targets(m);
      assert fs[0] == ValidatorUpdate(rem[0], 0);
      assert rem[0] !in end;
    }
  }

  lemma AllLeave(m: RollkitMigration, vals: seq<PubKey>)
    requires m.attesters == [] && m.sequencer !in vals
    ensures Removals(m, vals) == vals && Additions(m, vals) == []
  {
    WithoutNothing(vals, Elems(Targets(m)));
  }

  /** Thirty validators that all leave for a sequencer: the window completes, and its last block names absent ones. */
  lemma ClosingNamesAbsent(m: RollkitMigration, vals: seq<PubKey>)
    requires |vals| == 30 && Decodable(vals)
    requires m.attesters == [] && m.sequencer.decodable && m.sequencer !in vals
    ensures Completes(m, vals)
    ensures !RemovesMembersOnly(Uniform(MidKeys(m, vals, SMOOTHING)), FinalUpdates(m, vals))
  {
    AllLeave(m, vals);
    assert PerStep(30) == 1 && PerStep(0) == 0;
    ClosingRepeatsRemovals(m, vals);
    assert vals[0] in Elems(vals) && vals[0] !in Elems(Targets(m));
  }

  lemma NobodyLeft(m: RollkitMigration, vals: seq<PubKey>)
    ensures Elems(Removals(m, vals)) !! MidKeys(m, vals, SMOOTHING)
  {
    var rem, add := Removals(m, vals), Additions(m, vals);
    PerStepBounds(|rem|);
    assert Covered(|rem|, SMOOTHING) == |rem| && rem[..|rem|] == rem;
    TakeDisjoint(m, vals);
    assert Elems(add[..Covered(|add|, SMOOTHING)]) <= Elems(add);
  }
}
