/** What genesis import, whole runs and genesis export make of each other. */
module GenesisRuns {
  import opened Common
  import opened Bits
  import opened Bitmap
  import opened Network
  import opened Quorum
  import opened NetworkRuns
  import opened Genesis
  import Decimal

  // ---------------------------------------------------------------- rebuilding the index

  function Operators(vals: seq<Validator>): (r: seq<string>)
    ensures |r| == |vals|
  {
    seq(|vals|, i requires 0 <= i < |vals| => vals[i].operator)
  }

  function BondedOperators(vals: seq<Validator>): set<string> {
    set v | v in vals && v.bonded :: v.operator
  }

  lemma {:induction false} IndexKeys(vals: seq<Validator>)
    ensures BuildIndex(vals).indices.Keys == BondedOperators(vals)
  {
    if vals != [] {
      var front, v := vals[..|vals| - 1], vals[|vals| - 1];
      IndexKeys(front);
      assert vals == front + [v];
      assert BondedOperators(vals) == BondedOperators(front) + (if v.bonded then {v.operator} else {});
    }
  }

  /** n validators are numbered 0 .. n-1, without gap or clash. */
  ghost predicate Numbered(built: IndexMaps, n: nat) {
    && (forall op :: op in built.indices ==> built.indices[op] < n)
    && Injective(built.indices) && |built.indices| == n
    && (forall k :: k in built.powers <==> 0 <= k < n)
  }

  function OneMore(before: IndexMaps, v: Validator, next: uint16): IndexMaps {
    IndexMaps(before.indices[v.operator := before.next], before.powers[before.next := v.power], next)
  }

  lemma NumberOneMore(before: IndexMaps, n: nat, n': nat, v: Validator, next: uint16)
    requires Numbered(before, n) && before.next == n && n' == n + 1 && v.operator !in before.indices
    ensures Numbered(OneMore(before, v, next), n')
  {
    OneMoreIndex(before.indices, before.next, n', v.operator);
  }

  lemma OneMoreIndex(indices: map<string, uint16>, n: uint16, n': nat, op: string)
    requires Injective(indices) && op !in indices && n' == n + 1 && forall o | o in indices :: indices[o] < n
    ensures var next := indices[op := n];
            Injective(next) && |next| == |indices| + 1 && forall o | o in next :: next[o] < n'
  {
    assert indices[op := n].Keys == indices.Keys + {op};
  }

  lemma BuildStep(vals: seq<Validator>)
    requires vals != []
    ensures var front, v := vals[..|vals| - 1], vals[|vals| - 1];
            if v.bonded
            then BuildIndex(vals) == OneMore(BuildIndex(front), v, BuildIndex(vals).next)
                 && BondedCount(vals) == BondedCount(front) + 1
            else BuildIndex(vals) == BuildIndex(front) && BondedCount(vals) == BondedCount(front)
  {
  }

  lemma {:induction false} NextNumber(vals: seq<Validator>)
    requires BondedCount(vals) < TWO_16
    ensures BuildIndex(vals).next == BondedCount(vals)
  {
    if vals != [] {
      BuildStep(vals);
      NextNumber(vals[..|vals| - 1]);
    }
  }

  lemma LastIsNew(vals: seq<Validator>)
    requires vals != [] && Distinct(Operators(vals))
    ensures vals[|vals| - 1].operator !in BuildIndex(vals[..|vals| - 1]).indices
  {
    var front, v := vals[..|vals| - 1], vals[|vals| - 1];
    IndexKeys(front);
    forall w | w in front ensures w.operator != v.operator {
      var i :| 0 <= i < |front| && front[i] == w;
      assert Operators(vals)[i] != Operators(vals)[|vals| - 1];
    }
  }

  /** Distinct operators, at most 2^16 of them bonded: the bonded ones are indexed, and numbered in a row. */
  lemma {:induction false} BuildIndexNumbers(vals: seq<Validator>)
    requires Distinct(Operators(vals)) && BondedCount(vals) <= TWO_16
    ensures BuildIndex(vals).indices.Keys == BondedOperators(vals)
    ensures Numbered(BuildIndex(vals), BondedCount(vals))
  {
    IndexKeys(vals);
    if vals != [] {
      var front, v := vals[..|vals| - 1], vals[|vals| - 1];
      assert Operators(front) == Operators(vals)[..|vals| - 1];
      BuildIndexNumbers(front);
      BuildStep(vals);
      if v.bonded {
        LastIsNew(vals);
        NextNumber(front);
        NumberOneMore(BuildIndex(front), BondedCount(front), BondedCount(vals), v, BuildIndex(vals).next);
      }
    }
  }

  /** Each bonded validator is filed at its place among the bonded ones, with its own power there. */
  lemma {:induction false} BuildIndexPlaces(vals: seq<Validator>, i: nat)
    requires Distinct(Operators(vals)) && BondedCount(vals) <= TWO_16 && i < |vals| && vals[i].bonded
    ensures var built, place := BuildIndex(vals), BondedCount(vals[..i]);
            && place < TWO_16
            && vals[i].operator in built.indices && built.indices[vals[i].operator] == place
            && place in built.powers && built.powers[place] == vals[i].power
  {
    var n := |vals| - 1;
    var front := vals[..n];
    assert Operators(front) == Operators(vals)[..n];
    BuildStep(vals);
    if vals[n].bonded {
      NextNumber(front);
      LastIsNew(vals);
    }
    if i < n {
      assert front[..i] == vals[..i] && front[i] == vals[i];
      BuildIndexPlaces(front, i);
      BondedGrows(front, i);
      assert Operators(vals)[i] != Operators(vals)[n];
    }
  }

  lemma {:induction false} BondedGrows(vals: seq<Validator>, i: nat)
    requires i < |vals| && vals[i].bonded
    ensures BondedCount(vals[..i]) < BondedCount(vals)
  {
    var n := |vals| - 1;
    if i < n {
      assert vals[..n][..i] == vals[..i];
      BondedGrows(vals[..n], i);
    }
  }

  // ---------------------------------------------------------------- every reachable state exports a valid genesis

  /** What a valid export needs of params and indices, and what end blockers need to keep it so. */
  predicate Sound(st: Store) {
    && st.params.Some? && st.params.value.Valid()
    && Injective(st.validatorIndex) && Powered(st) && |st.validatorIndex| < TWO_16
  }

  /** What it needs of attestations. */
  predicate InfosValid(st: Store) {
    forall h :: h in st.attestationInfo ==> ValidInfo(st.attestationInfo[h])
  }

  /** What staking promises at a call: a positive height, distinct operators, no more than 65535 of them bonded. */
  predicate Staked(e: Event) {
    && e.ctx.height > 0
    && BondedCount(e.ctx.staking.all) < TWO_16
    && Distinct(Operators(e.ctx.staking.all))
  }

  predicate StakedRun(es: seq<Event>) {
    forall i :: 0 <= i < |es| ==> Staked(es[i])
  }

  lemma EpochEndSound(st: Store, epoch: uint64, staking: Staking)
    requires Sound(st) && BondedCount(staking.all) < TWO_16 && Distinct(Operators(staking.all))
    ensures Sound(EpochEndSpec(st, epoch, staking).0)
  {
    BuildIndexNumbers(staking.all);
  }

  lemma EndBlockerSound(st: Store, e: Event)
    requires Sound(st) && Staked(e)
    ensures Sound(EndBlockerSpec(st, e.ctx).0)
  {
    CheckpointFrame(st, e.ctx.height, e.ctx.staking.totalPower);
    var epoch := CurrentEpoch(st, e.ctx.height).value;
    var checked := CheckpointSpec(st, e.ctx.height, e.ctx.staking.totalPower).0;
    EpochEndSound(st, epoch, e.ctx.staking);
    EpochEndSound(checked, epoch, e.ctx.staking);
    assert CurrentEpoch(checked, e.ctx.height) == CurrentEpoch(st, e.ctx.height);
  }

  lemma StepSound(st: Store, e: Event)
    requires Sound(st) && Staked(e)
    ensures Sound(Step(st, e))
  {
    match e.op
    case EndBlock => EndBlockerSound(st, e);
    case Attest(v, h, vote) => AttestFrame(st, e.ctx, v, h, vote);
    case _ => MessageFrame(st, e);
  }

  lemma AttestFrame(st: Store, ctx: Context, v: string, h: int64, vote: seq<byte>)
    ensures var st' := AttestSpec(st, ctx, v, h, vote).0;
            && st'.validatorIndex == st.validatorIndex && st'.validatorPower == st.validatorPower
            && st'.params == st.params
  {
  }

  lemma {:induction false} RunSound(st: Store, es: seq<Event>)
    requires Sound(st) && StakedRun(es)
    ensures Sound(Run(st, es))
  {
    if es != [] {
      RunSound(st, es[..|es| - 1]);
      StepSound(Run(st, es[..|es| - 1]), es[|es| - 1]);
    }
  }

  // ---------------------------------------------------------------- which attestations are filed

  /** A successful end blocker that files the attestation of its height. */
  predicate Files(st: Store, e: Event) {
    && e.op.EndBlock? && Call(st, e).1.Ok?
    && IsCheckpointHeight(st, e.ctx.height) == Ok(true) && e.ctx.height in st.attestationBitmap
  }

  /** It files more power than there is: the sum over the 16-bit keys of the bitmap's positions passes the total. */
  predicate Overfull(st: Store, e: Event) {
    Files(st, e) &&
    var voted := VotedPower(st.validatorPower, st.attestationBitmap[e.ctx.height]);
    voted.Ok? && voted.value > e.ctx.staking.totalPower
  }

  lemma EndBlockInfos(st: Store, e: Event)
    requires e.op.EndBlock?
    ensures var infos, h := Step(st, e).attestationInfo, e.ctx.height;
            if Files(st, e) then
              && h in infos && infos == st.attestationInfo[h := infos[h]]
              && infos[h].height == h && infos[h].totalPower == e.ctx.staking.totalPower
              && VotedPower(st.validatorPower, st.attestationBitmap[h]) == Ok(infos[h].votedPower)
            else
              infos == st.attestationInfo
  {
  }

  lemma StepInfos(st: Store, e: Event)
    requires e.ctx.height > 0
    ensures var st', h := Step(st, e), e.ctx.height;
            && (st'.attestationInfo == st.attestationInfo
                || (e.op.EndBlock? && h in st'.attestationInfo
                    && st'.attestationInfo == st.attestationInfo[h := st'.attestationInfo[h]]))
            && (InfosValid(st) && !Overfull(st, e) ==> InfosValid(st'))
            && (Overfull(st, e) ==> h in st'.attestationInfo && !ValidInfo(st'.attestationInfo[h]))
  {
    if e.op.EndBlock? {
      EndBlockInfos(st, e);
    } else {
      assert Step(st, e).attestationInfo == st.attestationInfo;
    }
  }

  predicate NeverOverfull(st: Store, es: seq<Event>) {
    es == [] ||
    (NeverOverfull(st, es[..|es| - 1]) && !Overfull(Run(st, es[..|es| - 1]), es[|es| - 1]))
  }

  /** The end blocker runs once per height. */
  predicate HeightsOnce(es: seq<Event>) {
    forall i, j :: 0 <= i < j < |es| && es[i].op.EndBlock? && es[j].op.EndBlock? ==>
                     es[i].ctx.height != es[j].ctx.height
  }

  lemma {:induction false} NeverOverfullValid(st: Store, es: seq<Event>)
    requires InfosValid(st) && StakedRun(es) && NeverOverfull(st, es)
    ensures InfosValid(Run(st, es))
  {
    if es != [] {
      var n := |es| - 1;
      NeverOverfullValid(st, es[..n]);
      StepInfos(Run(st, es[..n]), es[n]);
    }
  }

  predicate BadAt(st: Store, h: int64) {
    h in st.attestationInfo && !ValidInfo(st.attestationInfo[h])
  }

  lemma StillBad(st: Store, e: Event, h: int64)
    requires e.ctx.height > 0 && BadAt(st, h) && (e.op.EndBlock? ==> e.ctx.height != h)
    ensures BadAt(Step(st, e), h)
  {
    StepInfos(st, e);
  }

  /** What was filed with too much power is still there at the end. */
  lemma {:induction false} OverfullStays(st: Store, es: seq<Event>) returns (i: nat)
    requires StakedRun(es) && HeightsOnce(es) && !NeverOverfull(st, es)
    ensures i < |es| && es[i].op.EndBlock? && BadAt(Run(st, es), es[i].ctx.height)
  {
    var n := |es| - 1;
    var front := es[..n];
    if NeverOverfull(st, front) {
      StepInfos(Run(st, front), es[n]);
      i := n;
    } else {
      i := OverfullStays(st, front);
      StillBad(Run(st, front), es[n], es[i].ctx.height);
    }
  }

  lemma ExportIndicesValid(st: Store, addresses: seq<string>, heights: seq<int64>)
    requires Sound(st) && Walks(addresses, st.validatorIndex) && Walks(heights, st.attestationInfo)
    ensures ExportSpec(st, addresses, heights).Some?
    ensures var vis := ExportSpec(st, addresses, heights).value.validatorIndices;
            |vis| < TWO_16 && Distinct(Addresses(vis)) && Distinct(IndexNumbers(vis))
  {
    var vis := ExportSpec(st, addresses, heights).value.validatorIndices;
    assert Addresses(vis) == addresses;
    DistinctSize(addresses);
    forall i, j | 0 <= i < j < |vis| ensures vis[i].index != vis[j].index {
      assert addresses[i] != addresses[j] && addresses[i] in Elems(addresses) && addresses[j] in Elems(addresses);
    }
  }

  lemma ExportValid(st: Store, addresses: seq<string>, heights: seq<int64>)
    requires Sound(st) && Walks(addresses, st.validatorIndex) && Walks(heights, st.attestationInfo)
    ensures var exported := ExportSpec(st, addresses, heights);
            exported.Some? && (ValidGenesis(exported.value) <==> InfosValid(st))
  {
    ExportIndicesValid(st, addresses, heights);
    var abs := ExportSpec(st, addresses, heights).value.attestationBitmaps;
    forall i | 0 <= i < |heights| ensures heights[i] in st.attestationInfo && abs[i] == st.attestationInfo[heights[i]] {
      assert heights[i] in Elems(heights);
    }
    forall h | h in st.attestationInfo ensures exists i :: 0 <= i < |abs| && abs[i] == st.attestationInfo[h] {
      assert h in Elems(heights);
      var i :| 0 <= i < |heights| && heights[i] == h;
      assert abs[i] == st.attestationInfo[h];
    }
  }

  lemma {:induction false} DistinctSize<T>(s: seq<T>)
    ensures |Elems(s)| <= |s|
    ensures Distinct(s) <==> |Elems(s)| == |s|
  {
    if s != [] {
      var front, last := s[..|s| - 1], s[|s| - 1];
      DistinctSize(front);
      assert Elems(s) == Elems(front) + {last};
      if last in front {
        var i :| 0 <= i < |front| && front[i] == last;
        assert s[i] == s[|s| - 1];
        assert Elems(s) == Elems(front);
      } else {
        assert Distinct(s) <==> Distinct(front);
      }
    }
  }

  // ---------------------------------------------------------------- import

  lemma {:induction false} InitIndicesFrame(st: Store, vis: seq<ValidatorIndex>)
    requires st.validatorIndex == map[]
    ensures var st' := InitIndices(st, vis);
            && st' == st.(validatorIndex := st'.validatorIndex, validatorPower := st'.validatorPower,
                          attesterSet := st'.attesterSet)
            && st'.validatorIndex.Keys == Elems(Addresses(vis))
  {
    if vis != [] {
      var front, vi := vis[..|vis| - 1], vis[|vis| - 1];
      InitIndicesFrame(st, front);
      assert Addresses(vis) == Addresses(front) + [vi.address];
      assert Elems(Addresses(vis)) == Elems(Addresses(front)) + {vi.address};
    }
  }

  /** The store holds an entry's index under its address, and its power under its index. */
  predicate Filed(st: Store, vi: ValidatorIndex) {
    && vi.address in st.validatorIndex && st.validatorIndex[vi.address] == vi.index
    && vi.index in st.validatorPower && st.validatorPower[vi.index] == vi.power
  }

  predicate NarrowIndices(gs: GenesisState) {
    forall i :: 0 <= i < |gs.validatorIndices| ==> gs.validatorIndices[i].index < TWO_16
  }

  lemma {:induction false} AllFiled(st: Store, vis: seq<ValidatorIndex>)
    requires Distinct(Addresses(vis)) && Distinct(IndexNumbers(vis))
    requires forall i :: 0 <= i < |vis| ==> vis[i].index < TWO_16
    ensures forall i :: 0 <= i < |vis| ==> Filed(InitIndices(st, vis), vis[i])
  {
    if vis != [] {
      var front, vi := vis[..|vis| - 1], vis[|vis| - 1];
      assert Addresses(front) == Addresses(vis)[..|vis| - 1] && IndexNumbers(front) == IndexNumbers(vis)[..|vis| - 1];
      AllFiled(st, front);
      forall i | 0 <= i < |front| ensures Filed(InitIndices(st, vis), vis[i]) {
        assert Filed(InitIndices(st, front), front[i]);
        assert Addresses(vis)[i] != Addresses(vis)[|vis| - 1] && IndexNumbers(vis)[i] != IndexNumbers(vis)[|vis| - 1];
      }
    }
  }

  /** Each stored attestation comes from the list, under its own height, beside its bitmap. */
  predicate InfoFrom(st: Store, abs: seq<AttestationInfo>, h: int64)
    requires h in st.attestationInfo
  {
    && st.attestationInfo[h] in abs && st.attestationInfo[h].height == h
    && h in st.attestationBitmap && st.attestationBitmap[h] == st.attestationInfo[h].bitmap
  }

  lemma {:induction false} InitBitmapsFrame(st: Store, abs: seq<AttestationInfo>)
    requires st.attestationInfo == map[] && st.attestationBitmap == map[]
    ensures var st' := InitBitmaps(st, abs);
            && st' == st.(attestationBitmap := st'.attestationBitmap, attestationInfo := st'.attestationInfo)
            && st'.attestationInfo.Keys == st'.attestationBitmap.Keys == Elems(Heights(abs))
            && (forall h :: h in st'.attestationInfo ==> InfoFrom(st', abs, h))
  {
    if abs != [] {
      var front, ab := abs[..|abs| - 1], abs[|abs| - 1];
      InitBitmapsFrame(st, front);
      assert Heights(abs) == Heights(front) + [ab.height];
      assert Elems(Heights(abs)) == Elems(Heights(front)) + {ab.height};
      var before, after := InitBitmaps(st, front), InitBitmaps(st, abs);
      forall h | h in after.attestationInfo ensures InfoFrom(after, abs, h) {
        if h == ab.height {
          assert abs[|abs| - 1] in abs;
        } else {
          assert InfoFrom(before, front, h);
        }
      }
    }
  }

  lemma InfoIsTheEntry(st: Store, abs: seq<AttestationInfo>, i: nat)
    requires Distinct(Heights(abs)) && i < |abs|
    requires abs[i].height in st.attestationInfo && InfoFrom(st, abs, abs[i].height)
    ensures st.attestationInfo[abs[i].height] == abs[i]
  {
    var j :| 0 <= j < |abs| && abs[j] == st.attestationInfo[abs[i].height];
    assert Heights(abs)[i] == Heights(abs)[j];
  }

  /** The attesters of an import are the addresses of its index. */
  lemma {:induction false} ImportedAttesters(st: Store, vis: seq<ValidatorIndex>)
    ensures InitIndices(st, vis).attesterSet == st.attesterSet + Elems(Addresses(vis))
  {
    if vis != [] {
      var front, vi := vis[..|vis| - 1], vis[|vis| - 1];
      ImportedAttesters(st, front);
      assert Addresses(vis) == Addresses(front) + [vi.address];
    }
  }

  /** Of the attestations of one height the last one stays, with its bitmap. */
  lemma {:induction false} LastAttestationStays(st: Store, abs: seq<AttestationInfo>, i: nat)
    requires i < |abs| && forall j :: i < j < |abs| ==> abs[j].height != abs[i].height
    ensures var st', h := InitBitmaps(st, abs), abs[i].height;
            && h in st'.attestationInfo && st'.attestationInfo[h] == abs[i]
            && h in st'.attestationBitmap && st'.attestationBitmap[h] == abs[i].bitmap
  {
    var n := |abs| - 1;
    if i < n { LastAttestationStays(st, abs[..n], i); }
  }

  /** What a store holds after the import of a genesis whose indices fit 16 bits. */
  lemma ImportExactly(gs: GenesisState)
    requires ValidGenesis(gs) && NarrowIndices(gs)
    ensures var st, vis := InitSpec(EMPTY_STORE, gs), gs.validatorIndices;
            && st.params == Some(gs.params) && st.signatures == map[] && st.epochBitmap == map[]
            && st.attesterSet == st.validatorIndex.Keys == Elems(Addresses(vis))
            && (forall i :: 0 <= i < |vis| ==> Filed(st, vis[i]))
            && st.attestationInfo.Keys == st.attestationBitmap.Keys == Elems(Heights(gs.attestationBitmaps))
  {
    var vis, abs := gs.validatorIndices, gs.attestationBitmaps;
    var st0 := EMPTY_STORE.(params := Some(gs.params));
    var st1 := InitIndices(st0, vis);
    InitIndicesFrame(st0, vis);
    ImportedAttesters(st0, vis);
    AllFiled(st0, vis);
    InitBitmapsFrame(st1, abs);
    var st := InitBitmaps(st1, abs);
    forall i | 0 <= i < |vis| ensures Filed(st, vis[i]) { assert Filed(st1, vis[i]); }
  }

  lemma InitSound(gs: GenesisState)
    requires ValidGenesis(gs) && NarrowIndices(gs)
    ensures Sound(InitSpec(EMPTY_STORE, gs)) && InfosValid(InitSpec(EMPTY_STORE, gs))
    ensures ShortBitmaps(gs) ==> ShortStore(InitSpec(EMPTY_STORE, gs))
  {
    var vis, abs := gs.validatorIndices, gs.attestationBitmaps;
    var st0 := EMPTY_STORE.(params := Some(gs.params));
    var st1 := InitIndices(st0, vis);
    InitIndicesFrame(st0, vis);
    AllFiled(st0, vis);
    IndicesInjective(st1, vis);
    DistinctSize(Addresses(vis));
    InitBitmapsFrame(st1, abs);
    var st2 := InitBitmaps(st1, abs);
    forall h | h in st2.attestationInfo
      ensures ValidInfo(st2.attestationInfo[h]) && (ShortBitmaps(gs) ==> Short(st2.attestationBitmap[h]))
    {
      assert InfoFrom(st2, abs, h);
    }
  }

  lemma IndicesInjective(st: Store, vis: seq<ValidatorIndex>)
    requires st.validatorIndex.Keys == Elems(Addresses(vis)) && Distinct(IndexNumbers(vis))
    requires forall i :: 0 <= i < |vis| ==> Filed(st, vis[i])
    ensures Injective(st.validatorIndex) && Powered(st)
  {
    forall v | v in st.validatorIndex
      ensures exists i :: 0 <= i < |vis| && vis[i].address == v && Filed(st, vis[i])
    {
      var i :| 0 <= i < |vis| && Addresses(vis)[i] == v;
      assert Filed(st, vis[i]);
    }
    forall v, w | v in st.validatorIndex && w in st.validatorIndex && v != w
      ensures st.validatorIndex[v] != st.validatorIndex[w]
    {
      var i :| 0 <= i < |vis| && vis[i].address == v;
      var j :| 0 <= j < |vis| && vis[j].address == w;
      assert Filed(st, vis[i]) && Filed(st, vis[j]);
      assert IndexNumbers(vis)[i] != IndexNumbers(vis)[j];
    }
  }

  /**
   From a valid genesis whose indices fit 16 bits, after any run of messages and end blockers,
   one per height, the export passes validation in whatever order the store walks, exactly when
   no end blocker filed more voted power than the total.
   */
  lemma ReachableExportsValid(gs: GenesisState, es: seq<Event>, addresses: seq<string>, heights: seq<int64>)
    requires ValidGenesis(gs) && NarrowIndices(gs) && StakedRun(es) && HeightsOnce(es)
    requires var st := Run(InitSpec(EMPTY_STORE, gs), es);
             Walks(addresses, st.validatorIndex) && Walks(heights, st.attestationInfo)
    ensures var exported := ExportSpec(Run(InitSpec(EMPTY_STORE, gs), es), addresses, heights);
            exported.Some? && (ValidGenesis(exported.value) <==> NeverOverfull(InitSpec(EMPTY_STORE, gs), es))
  {
    var st := InitSpec(EMPTY_STORE, gs);
    InitSound(gs);
    RunSound(st, es);
    ExportValid(Run(st, es), addresses, heights);
    if NeverOverfull(st, es) {
      NeverOverfullValid(st, es);
    } else {
      var i := OverfullStays(st, es);
    }
  }

  predicate ShortBitmaps(gs: GenesisState) {
    forall i :: 0 <= i < |gs.attestationBitmaps| ==> Short(gs.attestationBitmaps[i].bitmap)
  }

  predicate ShortStore(st: Store) {
    forall h :: h in st.attestationBitmap ==> Short(st.attestationBitmap[h])
  }

  /** What staking promises besides: no more than 65535 last validators bonded, indexed powers within the total. */
  predicate PowersWithin(st: Store, e: Event) {
    && BondedCount(e.ctx.staking.last) < TWO_16
    && TotalIndexed(st.validatorPower) <= e.ctx.staking.totalPower
  }

  predicate PowersWithinRun(st: Store, es: seq<Event>) {
    es == [] ||
    (PowersWithinRun(st, es[..|es| - 1]) && PowersWithin(Run(st, es[..|es| - 1]), es[|es| - 1]))
  }

  lemma AttestShort(st: Store, ctx: Context, v: string, h: int64, vote: seq<byte>)
    requires ShortStore(st) && BondedCount(ctx.staking.last) < TWO_16 && AttestSpec(st, ctx, v, h, vote).1.Ok?
    ensures ShortStore(AttestSpec(st, ctx, v, h, vote).0)
  {
    var st' := AttestSpec(st, ctx, v, h, vote).0;
    WithBitInserts(BitmapFor(st, ctx, h), st.validatorIndex[v]);
    assert st'.attestationBitmap == st.attestationBitmap[h := WithBit(BitmapFor(st, ctx, h), st.validatorIndex[v])];
  }

  lemma StepShort(st: Store, e: Event)
    requires ShortStore(st) && BondedCount(e.ctx.staking.last) < TWO_16
    ensures ShortStore(Step(st, e))
  {
    if e.op.Attest? && Call(st, e).1.Ok? {
      AttestShort(st, e.ctx, e.op.validator, e.op.height, e.op.vote);
    } else {
      BitmapsFrame(st, e);
    }
  }

  /** Only a successful attestation touches the stored bitmaps. */
  lemma BitmapsFrame(st: Store, e: Event)
    requires !(e.op.Attest? && Call(st, e).1.Ok?)
    ensures Step(st, e).attestationBitmap == st.attestationBitmap
  {
    if e.op.EndBlock? {
      EndBlockerFrame(st, e.ctx);
    } else if e.op.Attest? {
      assert Step(st, e) == st;
    } else {
      MessageFrame(st, e);
    }
  }

  lemma MessageFrame(st: Store, e: Event)
    requires e.op.Join? || e.op.Leave? || e.op.UpdateParams?
    ensures var st' := Step(st, e); st' == st.(attesterSet := st'.attesterSet, params := st'.params)
    ensures st.params.Some? && st.params.value.Valid() ==> Step(st, e).params.Some? && Step(st, e).params.value.Valid()
  {
  }

  lemma EndBlockerFrame(st: Store, ctx: Context)
    ensures EndBlockerSpec(st, ctx).0.attestationBitmap == st.attestationBitmap
  {
    CheckpointFrame(st, ctx.height, ctx.staking.totalPower);
  }

  lemma ShortNotOverfull(st: Store, e: Event)
    requires ShortStore(st) && PowersWithin(st, e)
    ensures !Overfull(st, e)
  {
    if Files(st, e) {
      ShortUnaliased(st.attestationBitmap[e.ctx.height]);
      VotedPowerIsSum(st.validatorPower, st.attestationBitmap[e.ctx.height]);
    }
  }

  /** While the indexed powers stay within the total, bitmaps of at most 8192 bytes never file too much. */
  lemma {:induction false} ShortNeverOverfull(st: Store, es: seq<Event>)
    requires ShortStore(st) && PowersWithinRun(st, es)
    ensures ShortStore(Run(st, es)) && NeverOverfull(st, es)
  {
    if es != [] {
      var n := |es| - 1;
      ShortNeverOverfull(st, es[..n]);
      StepShort(Run(st, es[..n]), es[n]);
      ShortNotOverfull(Run(st, es[..n]), es[n]);
    }
  }

  /** So from a genesis with short bitmaps every such run exports a valid genesis. */
  lemma ShortExportsValid(gs: GenesisState, es: seq<Event>, addresses: seq<string>, heights: seq<int64>)
    requires ValidGenesis(gs) && NarrowIndices(gs) && ShortBitmaps(gs) && StakedRun(es)
    requires PowersWithinRun(InitSpec(EMPTY_STORE, gs), es)
    requires var st := Run(InitSpec(EMPTY_STORE, gs), es);
             Walks(addresses, st.validatorIndex) && Walks(heights, st.attestationInfo)
    ensures var exported := ExportSpec(Run(InitSpec(EMPTY_STORE, gs), es), addresses, heights);
            exported.Some? && ValidGenesis(exported.value)
  {
    var st := InitSpec(EMPTY_STORE, gs);
    InitSound(gs);
    ShortNeverOverfull(st, es);
    NeverOverfullValid(st, es);
    RunSound(st, es);
    ExportValid(Run(st, es), addresses, heights);
  }

  const VALID_PARAMS := Params(10, Some(Decimal.SCALE), Some(Decimal.SCALE), 7, SIGN_MODE_CHECKPOINT)

  const OVERLONG_GENESIS := GenesisState(
    VALID_PARAMS,
    [ValidatorIndex("v", 0, 1)],
    [AttestationInfo(10, LONG_BITMAP, 0, 0, false)])

  /**
   Validation bounds no bitmap: with 8193 bytes, positions 0 and 65536 share a key. One end
   blocker then counts the only validator twice, and the export is not a valid genesis.
   */
  lemma OverlongBitmap(ctx: Context, addresses: seq<string>, heights: seq<int64>)
    requires ctx == Context(10, Staking([Validator("v", true, 1)], [Validator("v", true, 1)], 1))
    requires var st := Step(InitSpec(EMPTY_STORE, OVERLONG_GENESIS), Event(ctx, EndBlock));
             Walks(addresses, st.validatorIndex) && Walks(heights, st.attestationInfo)
    ensures ValidGenesis(OVERLONG_GENESIS) && NarrowIndices(OVERLONG_GENESIS)
    ensures var st := InitSpec(EMPTY_STORE, OVERLONG_GENESIS);
            && Staked(Event(ctx, EndBlock)) && PowersWithin(st, Event(ctx, EndBlock))
            && var exported := ExportSpec(Step(st, Event(ctx, EndBlock)), addresses, heights);
            exported.Some? && !ValidGenesis(exported.value)
  {
    var st, e := InitSpec(EMPTY_STORE, OVERLONG_GENESIS), Event(ctx, EndBlock);
    OverlongStore();
    OneValidator(st, e);
    LongPower(st.validatorPower);
    OverlongFiles(st, e);
    StepInfos(st, e);
    InitSound(OVERLONG_GENESIS);
    StepSound(st, e);
    ExportValid(Step(st, e), addresses, heights);
  }

  lemma OverlongStore()
    ensures var st := InitSpec(EMPTY_STORE, OVERLONG_GENESIS);
            && ValidGenesis(OVERLONG_GENESIS) && NarrowIndices(OVERLONG_GENESIS)
            && st.validatorPower == map[0 := 1] && st.params == Some(OVERLONG_GENESIS.params)
            && st.attestationBitmap == map[10 := OVERLONG_GENESIS.attestationBitmaps[0].bitmap]
  {
    var gs := OVERLONG_GENESIS;
    var st0 := EMPTY_STORE.(params := Some(gs.params));
    ImportOne(st0, ValidatorIndex("v", 0, 1), gs.attestationBitmaps[0]);
  }

  lemma ImportOne(st: Store, vi: ValidatorIndex, ab: AttestationInfo)
    requires vi.index < TWO_16 && st.validatorPower == map[] && st.attestationBitmap == map[]
    ensures var st' := InitBitmaps(InitIndices(st, [vi]), [ab]);
            && st'.validatorPower == map[vi.index := vi.power] && st'.params == st.params
            && st'.attestationBitmap == map[ab.height := ab.bitmap]
  {
    assert [vi][..0] == [] && [ab][..0] == [];
    assert InitIndices(st, [vi][..0]) == st;
    assert InitBitmaps(InitIndices(st, [vi]), [ab][..0]) == InitIndices(st, [vi]);
  }

  lemma OneValidator(st: Store, e: Event)
    requires st.validatorPower == map[0 := 1]
    requires e.ctx == Context(10, Staking([Validator("v", true, 1)], [Validator("v", true, 1)], 1))
    ensures Staked(e) && PowersWithin(st, e)
  {
    var all := e.ctx.staking.all;
    assert all[..0] == [];
    SumInsert(st.validatorPower, {}, 0, TWO_16);
    SumOfNone(st.validatorPower, TWO_16);
    assert st.validatorPower.Keys == {} + {0};
  }

  lemma OverlongFiles(st: Store, e: Event)
    requires st.params == Some(OVERLONG_GENESIS.params) && e.op.EndBlock? && e.ctx.height == 10
    requires e.ctx.staking.totalPower == 1 && 10 in st.attestationBitmap
    requires VotedPower(st.validatorPower, st.attestationBitmap[10]) == Ok(2)
    ensures Overfull(st, e)
  {
    Decimal.RequiredPowerIsFloor(1, Decimal.SCALE);
    assert CheckpointSpec(st, 10, 1).1 == Ok(());
  }

  // ---------------------------------------------------------------- genesis round trip

  predicate SameUpToOrder(a: GenesisState, b: GenesisState) {
    && a.params == b.params
    && multiset(a.validatorIndices) == multiset(b.validatorIndices)
    && multiset(a.attestationBitmaps) == multiset(b.attestationBitmaps)
  }

  lemma {:induction false} DistinctMultiset<T>(s: seq<T>)
    requires Distinct(s)
    ensures multiset(s) == multiset(Elems(s))
  {
    if s != [] {
      var front, last := s[..|s| - 1], s[|s| - 1];
      DistinctMultiset(front);
      assert s == front + [last];
      assert Elems(s) == Elems(front) + {last};
      assert last !in Elems(front);
    }
  }

  /** Two lists without repeats that hold the same entries are the same up to order. */
  lemma SameEntries<T>(a: seq<T>, b: seq<T>)
    requires Distinct(a) && Distinct(b)
    requires forall x :: x in a ==> x in b
    requires forall x :: x in b ==> x in a
    ensures multiset(a) == multiset(b)
  {
    DistinctMultiset(a);
    DistinctMultiset(b);
    assert Elems(a) == Elems(b);
  }

  /** Exported in any order, the entries filed from vis are those of vis. */
  lemma IndicesReturn(vis: seq<ValidatorIndex>, st: Store, addresses: seq<string>, out: seq<ValidatorIndex>)
    requires Distinct(Addresses(vis)) && forall i :: 0 <= i < |vis| ==> Filed(st, vis[i])
    requires Distinct(addresses) && Elems(addresses) == Elems(Addresses(vis)) && Addresses(out) == addresses
    requires forall j :: 0 <= j < |out| ==> Filed(st, out[j])
    ensures multiset(out) == multiset(vis)
  {
    forall i, j | 0 <= i < j < |vis| ensures vis[i] != vis[j] { assert Addresses(vis)[i] != Addresses(vis)[j]; }
    forall i, j | 0 <= i < j < |out| ensures out[i] != out[j] { assert Addresses(out)[i] != Addresses(out)[j]; }
    forall x | x in out ensures x in vis {
      var j :| 0 <= j < |out| && out[j] == x;
      assert Addresses(out)[j] in Elems(addresses);
      var i :| 0 <= i < |vis| && Addresses(vis)[i] == Addresses(out)[j];
      assert Filed(st, vis[i]) && Filed(st, out[j]);
    }
    forall x | x in vis ensures x in out {
      var i :| 0 <= i < |vis| && vis[i] == x;
      assert Addresses(vis)[i] in Elems(Addresses(vis));
      assert Addresses(vis)[i] in Elems(addresses);
      var j :| 0 <= j < |out| && Addresses(out)[j] == Addresses(vis)[i];
      assert Filed(st, vis[i]) && Filed(st, out[j]);
    }
    SameEntries(out, vis);
  }

  lemma BitmapsReturn(abs: seq<AttestationInfo>, st: Store, heights: seq<int64>, out: seq<AttestationInfo>)
    requires Distinct(Heights(abs)) && st.attestationInfo.Keys == Elems(Heights(abs))
    requires forall h :: h in st.attestationInfo ==> InfoFrom(st, abs, h)
    requires Walks(heights, st.attestationInfo) && |out| == |heights|
    requires forall j :: 0 <= j < |out| ==> heights[j] in st.attestationInfo && out[j] == st.attestationInfo[heights[j]]
    ensures multiset(out) == multiset(abs)
  {
    forall i, j | 0 <= i < j < |abs| ensures abs[i] != abs[j] { assert Heights(abs)[i] != Heights(abs)[j]; }
    forall j | 0 <= j < |out| ensures out[j].height == heights[j] && out[j] in abs {
      assert InfoFrom(st, abs, heights[j]);
    }
    forall i, j | 0 <= i < j < |out| ensures out[i] != out[j] { assert heights[i] != heights[j]; }
    forall x | x in abs ensures x in out {
      var i :| 0 <= i < |abs| && abs[i] == x;
      assert Heights(abs)[i] in Elems(Heights(abs));
      InfoIsTheEntry(st, abs, i);
      assert abs[i].height in Elems(heights);
      var j :| 0 <= j < |heights| && heights[j] == abs[i].height;
      assert out[j] == x;
    }
    SameEntries(out, abs);
  }

  /**
   Importing a valid genesis into an empty store and exporting it gives the genesis back, up
   to order, exactly when every index fits 16 bits and no attestation height repeats.
   */
  lemma GenesisRoundTrip(gs: GenesisState, addresses: seq<string>, heights: seq<int64>)
    requires ValidGenesis(gs)
    requires Walks(addresses, InitSpec(EMPTY_STORE, gs).validatorIndex)
    requires Walks(heights, InitSpec(EMPTY_STORE, gs).attestationInfo)
    ensures var out := ExportSpec(InitSpec(EMPTY_STORE, gs), addresses, heights);
            out.Some? && SameUpToOrder(out.value, gs) <==> NarrowIndices(gs) && Distinct(Heights(gs.attestationBitmaps))
  {
    if NarrowIndices(gs) {
      NarrowReturn(gs, addresses, heights);
    } else {
      var out := ExportSpec(InitSpec(EMPTY_STORE, gs), addresses, heights);
      if out.Some? { WideIndexLost(gs, out.value); }
    }
  }

  lemma ExportedEntries(st: Store, addresses: seq<string>, heights: seq<int64>)
    requires Powered(st) && Walks(addresses, st.validatorIndex) && Walks(heights, st.attestationInfo)
    ensures var out := ExportSpec(st, addresses, heights);
            && out.Some? && out.value.params == GetParams(st)
            && var vis, abs := out.value.validatorIndices, out.value.attestationBitmaps;
            && Addresses(vis) == addresses && (forall j :: 0 <= j < |vis| ==> Filed(st, vis[j]))
            && |abs| == |heights|
            && (forall j :: 0 <= j < |abs| ==>
                  heights[j] in st.attestationInfo && abs[j] == st.attestationInfo[heights[j]])
  {
    forall j | 0 <= j < |addresses| ensures addresses[j] in st.validatorIndex {
      assert addresses[j] in Elems(addresses);
    }
    forall j | 0 <= j < |heights| ensures heights[j] in st.attestationInfo {
      assert heights[j] in Elems(heights);
    }
  }

  /** With narrow indices the index entries always return; the attestations do when no height repeats. */
  lemma NarrowReturn(gs: GenesisState, addresses: seq<string>, heights: seq<int64>)
    requires ValidGenesis(gs) && NarrowIndices(gs)
    requires Walks(addresses, InitSpec(EMPTY_STORE, gs).validatorIndex)
    requires Walks(heights, InitSpec(EMPTY_STORE, gs).attestationInfo)
    ensures var out := ExportSpec(InitSpec(EMPTY_STORE, gs), addresses, heights);
            out.Some? && (SameUpToOrder(out.value, gs) <==> Distinct(Heights(gs.attestationBitmaps)))
  {
    var vis, abs := gs.validatorIndices, gs.attestationBitmaps;
    var st0 := EMPTY_STORE.(params := Some(gs.params));
    var st1 := InitIndices(st0, vis);
    var st := InitBitmaps(st1, abs);
    InitIndicesFrame(st0, vis);
    InitBitmapsFrame(st1, abs);
    AllFiled(st0, vis);
    IndicesInjective(st1, vis);
    forall i | 0 <= i < |vis| ensures Filed(st, vis[i]) { assert Filed(st1, vis[i]); }
    var out := ExportSpec(st, addresses, heights);
    ExportedEntries(st, addresses, heights);
    IndicesReturn(vis, st, addresses, out.value.validatorIndices);
    if Distinct(Heights(abs)) {
      BitmapsReturn(abs, st, heights, out.value.attestationBitmaps);
    } else {
      RepeatedHeightsShrink(abs, st, heights);
      assert |multiset(out.value.attestationBitmaps)| < |multiset(abs)|;
    }
  }

  lemma RepeatedHeightsShrink(abs: seq<AttestationInfo>, st: Store, heights: seq<int64>)
    requires !Distinct(Heights(abs)) && st.attestationInfo.Keys == Elems(Heights(abs))
    requires Walks(heights, st.attestationInfo)
    ensures |heights| < |abs|
  {
    DistinctSize(Heights(abs));
    DistinctSize(heights);
  }

  lemma WideIndexLost(gs: GenesisState, out: GenesisState)
    requires !NarrowIndices(gs)
    requires forall j :: 0 <= j < |out.validatorIndices| ==> out.validatorIndices[j].index < TWO_16
    ensures !SameUpToOrder(out, gs)
  {
    var i :| 0 <= i < |gs.validatorIndices| && gs.validatorIndices[i].index >= TWO_16;
    assert gs.validatorIndices[i] in multiset(gs.validatorIndices);
    assert gs.validatorIndices[i] !in out.validatorIndices;
  }

  const WIDE_GENESIS := GenesisState(VALID_PARAMS, [ValidatorIndex("v", TWO_16, 1)], [])

  const REPEATING_GENESIS := GenesisState(
    VALID_PARAMS, [],
    [AttestationInfo(10, [1], 0, 0, false), AttestationInfo(10, [2], 0, 0, false)])

  /** Both losses happen to valid genesis files: an index of 2^16, and a height listed twice. */
  lemma RoundTripLosses(gs: GenesisState, addresses: seq<string>, heights: seq<int64>)
    requires gs == WIDE_GENESIS || gs == REPEATING_GENESIS
    requires Walks(addresses, InitSpec(EMPTY_STORE, gs).validatorIndex)
    requires Walks(heights, InitSpec(EMPTY_STORE, gs).attestationInfo)
    ensures ValidGenesis(gs)
    ensures var out := ExportSpec(InitSpec(EMPTY_STORE, gs), addresses, heights);
            !(out.Some? && SameUpToOrder(out.value, gs))
  {
    if gs == REPEATING_GENESIS {
      assert Heights(gs.attestationBitmaps)[0] == Heights(gs.attestationBitmaps)[1];
    } else {
      assert gs.validatorIndices[0].index == TWO_16;
    }
    GenesisRoundTrip(gs, addresses, heights);
  }
}
