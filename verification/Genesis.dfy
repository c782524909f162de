/** Genesis of the network module: validation, import, export. */
module Genesis {
  import opened Common
  import opened Network

  datatype ValidatorIndex = ValidatorIndex(address: string, index: uint32, power: uint64)

  datatype GenesisState = GenesisState(
    params: Params,
    validatorIndices: seq<ValidatorIndex>,
    attestationBitmaps: seq<AttestationInfo>)

  datatype GenesisError =
    | BadParams
    | TooManyIndices
    | DuplicateAddress(address: string)
    | DuplicateIndex(index: uint32)
    | BadHeight(height: int64)
    | ExcessPower(height: int64)

  function Addresses(vis: seq<ValidatorIndex>): (r: seq<string>)
    ensures |r| == |vis|
  {
    seq(|vis|, i requires 0 <= i < |vis| => vis[i].address)
  }

  function IndexNumbers(vis: seq<ValidatorIndex>): (r: seq<uint32>)
    ensures |r| == |vis|
  {
    seq(|vis|, i requires 0 <= i < |vis| => vis[i].index)
  }

  function Heights(abs: seq<AttestationInfo>): (r: seq<int64>)
    ensures |r| == |abs|
  {
    seq(|abs|, i requires 0 <= i < |abs| => abs[i].height)
  }

  predicate ValidInfo(ab: AttestationInfo) {
    ab.height > 0 && ab.votedPower <= ab.totalPower
  }

  predicate ValidGenesis(gs: GenesisState) {
    && gs.params.Valid()
    && |gs.validatorIndices| < TWO_16
    && Distinct(Addresses(gs.validatorIndices))
    && Distinct(IndexNumbers(gs.validatorIndices))
    && forall i :: 0 <= i < |gs.attestationBitmaps| ==> ValidInfo(gs.attestationBitmaps[i])
  }

  /** The bounds of a valid genesis, in numbers. */
  lemma GenesisBounds(gs: GenesisState)
    ensures ValidGenesis(gs) <==>
              && gs.params.Valid() && |gs.validatorIndices| <= 65535
              && (forall i, j :: 0 <= i < j < |gs.validatorIndices| ==>
                    && gs.validatorIndices[i].address != gs.validatorIndices[j].address
                    && gs.validatorIndices[i].index != gs.validatorIndices[j].index)
              && (forall i :: 0 <= i < |gs.attestationBitmaps| ==>
                    1 <= gs.attestationBitmaps[i].height
                    && gs.attestationBitmaps[i].votedPower <= gs.attestationBitmaps[i].totalPower)
  {
    var vis := gs.validatorIndices;
    assert forall i :: 0 <= i < |vis| ==> Addresses(vis)[i] == vis[i].address && IndexNumbers(vis)[i] == vis[i].index;
  }

  /** What an error of Validate says about the genesis. */
  predicate Explains(gs: GenesisState, e: GenesisError) {
    match e
    case BadParams => !gs.params.Valid()
    case TooManyIndices => |gs.validatorIndices| >= TWO_16
    case DuplicateAddress(a) =>
      exists i, j :: 0 <= i < j < |gs.validatorIndices|
                     && gs.validatorIndices[i].address == gs.validatorIndices[j].address == a
    case DuplicateIndex(n) =>
      exists i, j :: 0 <= i < j < |gs.validatorIndices|
                     && gs.validatorIndices[i].index == gs.validatorIndices[j].index == n
    case BadHeight(h) =>
      h <= 0 && exists i :: 0 <= i < |gs.attestationBitmaps| && gs.attestationBitmaps[i].height == h
    case ExcessPower(h) =>
      exists i :: 0 <= i < |gs.attestationBitmaps| && gs.attestationBitmaps[i].height == h
                  && gs.attestationBitmaps[i].votedPower > gs.attestationBitmaps[i].totalPower
  }

  method Validate(gs: GenesisState) returns (r: Result<(), GenesisError>)
    ensures r.Ok? <==> ValidGenesis(gs)
    ensures r.Err? ==> Explains(gs, r.error)
  {
    if !gs.params.Valid() { return Err(BadParams); }
    var vis := gs.validatorIndices;
    if |vis| > TWO_16 - 1 { return Err(TooManyIndices); }
    var indexMap: set<string> := {};
    var usedIndices: set<uint32> := {};
    for i := 0 to |vis|
      invariant forall a :: a in indexMap <==> exists j :: 0 <= j < i && vis[j].address == a
      invariant forall n :: n in usedIndices <==> exists j :: 0 <= j < i && vis[j].index == n
      invariant Distinct(Addresses(vis)[..i]) && Distinct(IndexNumbers(vis)[..i])
    {
      if vis[i].address in indexMap {
        var j :| 0 <= j < i && vis[j].address == vis[i].address;
        assert Addresses(vis)[j] == Addresses(vis)[i];
        return Err(DuplicateAddress(vis[i].address));
      }
      if vis[i].index in usedIndices {
        var j :| 0 <= j < i && vis[j].index == vis[i].index;
        assert IndexNumbers(vis)[j] == IndexNumbers(vis)[i];
        return Err(DuplicateIndex(vis[i].index));
      }
      indexMap := indexMap + {vis[i].address};
      usedIndices := usedIndices + {vis[i].index};
    }
    assert Addresses(vis)[..|vis|] == Addresses(vis) && IndexNumbers(vis)[..|vis|] == IndexNumbers(vis);
    var abs := gs.attestationBitmaps;
    for i := 0 to |abs|
      invariant forall k :: 0 <= k < i ==> ValidInfo(abs[k])
    {
      if abs[i].height <= 0 { return Err(BadHeight(abs[i].height)); }
      if abs[i].votedPower > abs[i].totalPower { return Err(ExcessPower(abs[i].height)); }
    }
    return Ok(());
  }

  // ---------------------------------------------------------------- import and export, on values

  function InitIndices(st: Store, vis: seq<ValidatorIndex>): Store {
    if vis == [] then st
    else
      var before, vi := InitIndices(st, vis[..|vis| - 1]), vis[|vis| - 1];
      before.(validatorIndex := before.validatorIndex[vi.address := Uint16(vi.index)],
              validatorPower := before.validatorPower[Uint16(vi.index) := vi.power],
              attesterSet := before.attesterSet + {vi.address})
  }

  function InitBitmaps(st: Store, abs: seq<AttestationInfo>): Store {
    if abs == [] then st
    else
      var before, ab := InitBitmaps(st, abs[..|abs| - 1]), abs[|abs| - 1];
      before.(attestationBitmap := before.attestationBitmap[ab.height := ab.bitmap],
              attestationInfo := before.attestationInfo[ab.height := ab])
  }

  function InitSpec(st: Store, gs: GenesisState): Store {
    InitBitmaps(InitIndices(st.(params := Some(gs.params)), gs.validatorIndices), gs.attestationBitmaps)
  }

  /** A walk visits the keys of a map once each, in some order. */
  predicate Walks<K(==), V>(order: seq<K>, m: map<K, V>) {
    Distinct(order) && Elems(order) == m.Keys
  }

  /** None is the panic of an index without power. */
  function ExportSpec(st: Store, addresses: seq<string>, heights: seq<int64>): Option<GenesisState>
    requires Walks(addresses, st.validatorIndex) && Walks(heights, st.attestationInfo)
  {
    if !Powered(st) then None
    else
      Some(GenesisState(
        GetParams(st),
        seq(|addresses|, i requires 0 <= i < |addresses| =>
          assert addresses[i] in Elems(addresses);
          var n := st.validatorIndex[addresses[i]];
          ValidatorIndex(addresses[i], n, st.validatorPower[n])),
        seq(|heights|, i requires 0 <= i < |heights| =>
          assert heights[i] in Elems(heights);
          st.attestationInfo[heights[i]])))
  }

  // ---------------------------------------------------------------- import and export

  method SetSoftConfirmed(k: Keeper, height: int64) returns (found: bool)
    modifies k`attestationInfo
    ensures found <==> height in old(k.attestationInfo)
    ensures var before := old(k.attestationInfo);
            k.attestationInfo == if found then before[height := before[height].(softConfirmed := true)] else before
  {
    if height !in k.attestationInfo { return false; }
    var ab := k.attestationInfo[height].(softConfirmed := true);
    k.attestationInfo := k.attestationInfo[height := ab];
    return true;
  }

  lemma OneMoreBitmap(st: Store, abs: seq<AttestationInfo>, i: nat)
    requires i < |abs|
    ensures var before, ab := InitBitmaps(st, abs[..i]), abs[i];
            InitBitmaps(st, abs[..i + 1])
              == before.(attestationBitmap := before.attestationBitmap[ab.height := ab.bitmap],
                         attestationInfo := before.attestationInfo[ab.height := ab])
  {
    assert abs[..i + 1][..i] == abs[..i];
  }

  method InitGenesis(k: Keeper, gs: GenesisState) returns (ok: bool)
    modifies k
    ensures ok && k.View() == InitSpec(old(k.View()), gs)
  {
    k.params := Some(gs.params);
    ghost var st0 := k.View();
    var vis := gs.validatorIndices;
    for i := 0 to |vis|
      invariant k.View() == InitIndices(st0, vis[..i])
    {
      assert vis[..i + 1][..i] == vis[..i];
      k.SetValidatorIndex(vis[i].address, Uint16(vis[i].index), vis[i].power);
      k.attesterSet := k.attesterSet + {vis[i].address};
    }
    assert vis[..|vis|] == vis;
    ghost var st1 := k.View();
    var abs := gs.attestationBitmaps;
    for i := 0 to |abs|
      invariant k.View() == InitBitmaps(st1, abs[..i])
    {
      OneMoreBitmap(st1, abs, i);
      k.attestationBitmap := k.attestationBitmap[abs[i].height := abs[i].bitmap];
      k.attestationInfo := k.attestationInfo[abs[i].height := abs[i]];
      if abs[i].softConfirmed {
        ghost var before := k.attestationInfo;
        var found := SetSoftConfirmed(k, abs[i].height);
        assert k.attestationInfo == before;
        if !found { return false; }
      }
    }
    assert abs[..|abs|] == abs;
    return true;
  }

  method ExportGenesis(k: Keeper, addresses: seq<string>, heights: seq<int64>) returns (r: Option<GenesisState>)
    requires Walks(addresses, k.validatorIndex) && Walks(heights, k.attestationInfo)
    ensures r == ExportSpec(k.View(), addresses, heights)
  {
    ghost var st := k.View();
    var vis: seq<ValidatorIndex> := [];
    for i := 0 to |addresses|
      invariant |vis| == i
      invariant forall j :: 0 <= j < i ==>
                  addresses[j] in st.validatorIndex && st.validatorIndex[addresses[j]] in st.validatorPower
                  && vis[j] == ValidatorIndex(addresses[j], st.validatorIndex[addresses[j]],
                                              st.validatorPower[st.validatorIndex[addresses[j]]])
    {
      var n := k.validatorIndex[addresses[i]];
      if n !in k.validatorPower { return None; }
      vis := vis + [ValidatorIndex(addresses[i], n, k.validatorPower[n])];
    }
    assert Powered(st) by {
      forall v | v in st.validatorIndex ensures st.validatorIndex[v] in st.validatorPower {
        assert v in addresses;
      }
    }
    var abs: seq<AttestationInfo> := [];
    for i := 0 to |heights|
      invariant |abs| == i
      invariant forall j :: 0 <= j < i ==> heights[j] in st.attestationInfo && abs[j] == st.attestationInfo[heights[j]]
    {
      abs := abs + [k.attestationInfo[heights[i]]];
    }
    var gs := GenesisState(GetParams(k.View()), vis, abs);
    assert gs == ExportSpec(st, addresses, heights).value;
    return Some(gs);
  }
}
