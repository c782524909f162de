/**
 Headers, commits and block IDs: what the adapter saves while executing a block, and what
 the RPC server rebuilds from the stores afterwards. Hash functions are parameters.
 */
module BlockChain {
  import opened Common

  type Hash = string

  datatype PartSetHeader = PartSetHeader(total: uint32, hash: Hash)

  datatype BlockID = BlockID(hash: Hash, parts: PartSetHeader)

  const NO_BLOCK_ID := BlockID("", PartSetHeader(0, ""))

  /** A rollup header with its signature, as the rollkit store keeps it. */
  datatype RollkitHeader = RollkitHeader(
    height: uint64,
    time: int,
    chainID: string,
    appVersion: uint64,
    dataHash: Hash,
    consensusHash: Hash,
    appHash: Hash,
    lastResultsHash: Hash,
    validatorHash: Hash,
    proposerAddress: string,
    signature: string)

  datatype CommitSig = CommitSig(validatorAddress: string, timestamp: int, signature: string)

  datatype Commit = Commit(height: int64, round: nat, blockID: BlockID, signatures: seq<CommitSig>)

  datatype CometHeader = CometHeader(
    appVersion: uint64,
    height: int64,
    time: int,
    lastBlockID: BlockID,
    lastCommitHash: Hash,
    dataHash: Hash,
    consensusHash: Hash,
    appHash: Hash,
    lastResultsHash: Hash,
    evidenceHash: Hash,
    proposerAddress: string,
    chainID: string,
    validatorsHash: Hash,
    nextValidatorsHash: Hash)

  /** The hash functions of the CometBFT library. */
  datatype Hashing = Hashing(header: CometHeader -> Hash, commit: Commit -> Hash, noEvidence: Hash)

  datatype Failure = NoProposer | NoHeader | NoBlockID

  type Outcome<T> = Result<T, Failure>

  /** The rollkit store of headers and the adapter's store of block IDs. */
  datatype Stores = Stores(headers: map<uint64, RollkitHeader>, blockIDs: map<uint64, BlockID>)

  function ToABCIHeader(hs: Hashing, h: RollkitHeader, last: Commit): Outcome<CometHeader> {
    if h.proposerAddress == "" then Err(NoProposer)
    else Ok(CometHeader(h.appVersion, ToInt64(h.height), h.time, last.blockID, hs.commit(last),
                        h.dataHash, h.consensusHash, h.appHash, h.lastResultsHash, hs.noEvidence,
                        h.proposerAddress, h.chainID, h.validatorHash, h.validatorHash))
  }

  function GetLastCommit(s: Stores, height: uint64): Outcome<Commit> {
    if height > 1 then
      if height - 1 !in s.headers then Err(NoHeader)
      else if height - 1 !in s.blockIDs then Err(NoBlockID)
      else
        var h := s.headers[height - 1];
        Ok(Commit(ToInt64(h.height), 0, s.blockIDs[height - 1],
                  [CommitSig(h.proposerAddress, h.time, h.signature)]))
    else Ok(Commit(0, 0, NO_BLOCK_ID, []))
  }

  /** The header ExecuteTxs hashes for a block. */
  function ExecutedHeader(hs: Hashing, s: Stores, height: uint64, h: RollkitHeader): Outcome<CometHeader> {
    match GetLastCommit(s, height)
    case Err(e) => Err(e)
    case Ok(last) => ToABCIHeader(hs, h, last)
  }

  /** The header getBlockMeta rebuilds from the stores. */
  function MetaHeader(hs: Hashing, s: Stores, height: uint64): Outcome<CometHeader> {
    if height !in s.headers then Err(NoHeader)
    else ExecutedHeader(hs, s, height, s.headers[height])
  }

  datatype ResultCommit = ResultCommit(header: CometHeader, commit: Commit)

  /** The RPC answer: None when there is no block meta, an error when the commit cannot be built. */
  function RpcCommit(hs: Hashing, s: Stores, height: uint64): Outcome<Option<ResultCommit>> {
    match MetaHeader(hs, s, height)
    case Err(_) => Ok(None)
    case Ok(header) =>
      match GetLastCommit(s, Uint64(height + 1))
      case Err(e) => Err(e)
      case Ok(commit) => Ok(Some(ResultCommit(header, commit)))
  }

  class Adapter {
    const hashing: Hashing
    var headers: map<uint64, RollkitHeader>
    var blockIDs: map<uint64, BlockID>

    function View(): Stores
      reads this
    {
      Stores(headers, blockIDs)
    }

    constructor (hashing: Hashing)
      ensures View() == Stores(map[], map[]) && this.hashing == hashing
    {
      this.hashing := hashing;
      headers, blockIDs := map[], map[];
    }

    /** The part of ExecuteTxs that ends in SaveBlockID. */
    method Execute(height: uint64, header: RollkitHeader, parts: PartSetHeader) returns (r: Outcome<BlockID>)
      modifies this`blockIDs
      ensures (View(), r) == ExecuteSpec(hashing, old(View()), height, header, parts)
    {
      var last := GetLastCommit(View(), height);
      if last.Err? { return Err(last.error); }
      var abciHeader := ToABCIHeader(hashing, header, last.value);
      if abciHeader.Err? { return Err(abciHeader.error); }
      var id := BlockID(hashing.header(abciHeader.value), parts);
      blockIDs := blockIDs[height := id];
      return Ok(id);
    }
  }

  function ExecuteSpec(hs: Hashing, s: Stores, height: uint64, h: RollkitHeader, parts: PartSetHeader)
    : (Stores, Outcome<BlockID>)
  {
    match ExecutedHeader(hs, s, height, h)
    case Err(e) => (s, Err(e))
    case Ok(header) =>
      var id := BlockID(hs.header(header), parts);
      (s.(blockIDs := s.blockIDs[height := id]), Ok(id))
  }

  // ---------------------------------------------------------------- runs

  /** One executed block: the header the sequencer stored, at its own height. */
  datatype Block = Block(header: RollkitHeader, parts: PartSetHeader)

  /** Storing a header and executing its block; a failed block leaves the header only. */
  function Step(hs: Hashing, s: Stores, b: Block): Stores {
    var stored := s.(headers := s.headers[b.header.height := b.header]);
    ExecuteSpec(hs, stored, b.header.height, b.header, b.parts).0
  }

  function Run(hs: Hashing, bs: seq<Block>): Stores {
    if bs == [] then Stores(map[], map[]) else Step(hs, Run(hs, bs[..|bs| - 1]), bs[|bs| - 1])
  }

  /** Each height at most once, in any order. */
  predicate OncePerHeight(bs: seq<Block>) {
    forall i, j :: 0 <= i < j < |bs| ==> bs[i].header.height != bs[j].header.height
  }

  /** The saved ID of a height hashes the header that the stores rebuild for it. */
  predicate Anchored(hs: Hashing, s: Stores, height: uint64)
    requires height in s.blockIDs
  {
    && MetaHeader(hs, s, height).Ok?
    && s.blockIDs[height].hash == hs.header(MetaHeader(hs, s, height).value)
  }

  lemma StoredHeights(hs: Hashing, bs: seq<Block>)
    ensures Run(hs, bs).blockIDs.Keys <= Run(hs, bs).headers.Keys
    ensures forall h :: h in Run(hs, bs).headers <==> exists i :: 0 <= i < |bs| && bs[i].header.height == h
  {
    if bs != [] {
      var front, b := bs[..|bs| - 1], bs[|bs| - 1];
      StoredHeights(hs, front);
      forall h ensures h in Run(hs, bs).headers <==> exists i :: 0 <= i < |bs| && bs[i].header.height == h {
        if h == b.header.height { assert bs[|bs| - 1].header.height == h; }
        else if h in Run(hs, front).headers {
          var i :| 0 <= i < |front| && front[i].header.height == h;
          assert bs[i].header.height == h;
        }
      }
    }
  }

  /** Storing and executing a new height leaves what the stores rebuild for older ones. */
  lemma NewHeightKeepsAnchors(hs: Hashing, s: Stores, b: Block, height: uint64)
    requires b.header.height !in s.headers && s.blockIDs.Keys <= s.headers.Keys
    requires height in s.blockIDs && Anchored(hs, s, height)
    ensures height in Step(hs, s, b).blockIDs && Anchored(hs, Step(hs, s, b), height)
    ensures Step(hs, s, b).blockIDs[height] == s.blockIDs[height]
  {
    assert GetLastCommit(Step(hs, s, b), height) == GetLastCommit(s, height);
  }

  lemma NewHeightAnchored(hs: Hashing, s: Stores, b: Block)
    requires b.header.height !in s.headers && s.blockIDs.Keys <= s.headers.Keys
    requires b.header.height in Step(hs, s, b).blockIDs
    ensures Anchored(hs, Step(hs, s, b), b.header.height)
  {
    var stored := s.(headers := s.headers[b.header.height := b.header]);
    assert GetLastCommit(Step(hs, s, b), b.header.height) == GetLastCommit(stored, b.header.height);
  }

  lemma {:induction false} RunAnchored(hs: Hashing, bs: seq<Block>, height: uint64)
    requires OncePerHeight(bs) && height in Run(hs, bs).blockIDs
    ensures Anchored(hs, Run(hs, bs), height)
  {
    if bs != [] {
      var front, b := bs[..|bs| - 1], bs[|bs| - 1];
      var s := Run(hs, front);
      StoredHeights(hs, front);
      assert forall i :: 0 <= i < |front| ==> bs[i].header.height != bs[|bs| - 1].header.height;
      assert b.header.height !in s.headers;
      if height == b.header.height {
        NewHeightAnchored(hs, s, b);
      } else {
        RunAnchored(hs, front, height);
        NewHeightKeepsAnchors(hs, s, b, height);
      }
    }
  }

  /** The commit for a height as a light client checks it: one signature, by the proposer of the stored header. */
  function CommitTo(h: RollkitHeader, id: BlockID): Commit {
    Commit(ToInt64(h.height), 0, id, [CommitSig(h.proposerAddress, h.time, h.signature)])
  }

  /** The RPC header shows what was stored, field by field. */
  predicate Shows(x: CometHeader, h: RollkitHeader) {
    && x.appVersion == h.appVersion && x.height == ToInt64(h.height) && x.time == h.time && x.chainID == h.chainID
    && x.appHash == h.appHash && x.dataHash == h.dataHash
    && x.consensusHash == h.consensusHash && x.lastResultsHash == h.lastResultsHash
    && x.proposerAddress == h.proposerAddress
    && x.validatorsHash == h.validatorHash && x.nextValidatorsHash == h.validatorHash
  }

  /** The header links to the block one height below: to its saved ID, and by hash to the commit for it. */
  predicate Links(hs: Hashing, s: Stores, x: CometHeader, height: uint64) {
    if height > 1 then
      && height - 1 in s.headers && height - 1 in s.blockIDs
      && x.lastBlockID == s.blockIDs[height - 1]
      && x.lastCommitHash == hs.commit(CommitTo(s.headers[height - 1], s.blockIDs[height - 1]))
    else
      x.lastBlockID == NO_BLOCK_ID && x.lastCommitHash == hs.commit(Commit(0, 0, NO_BLOCK_ID, []))
  }

  /** What a light client relies on in an answer for a height. */
  predicate Trusted(hs: Hashing, s: Stores, answer: ResultCommit, height: uint64) {
    && height in s.headers && height in s.blockIDs
    && Shows(answer.header, s.headers[height]) && answer.header.evidenceHash == hs.noEvidence
    && answer.commit == CommitTo(s.headers[height], s.blockIDs[height])
    && hs.header(answer.header) == answer.commit.blockID.hash
    && Links(hs, s, answer.header, height)
  }

  predicate Agrees(hs: Hashing, s: Stores, height: uint64) {
    match RpcCommit(hs, s, height)
    case Err(_) => false
    case Ok(None) => false
    case Ok(Some(answer)) => Trusted(hs, s, answer, height)
  }

  lemma AnchoredAgrees(hs: Hashing, s: Stores, height: uint64)
    requires height in s.blockIDs && 0 < height < TWO_64 - 1 && Anchored(hs, s, height)
    ensures Agrees(hs, s, height)
  {
    Wraps(height + 1);
    assert GetLastCommit(s, height + 1).Ok?;
  }

  /** The stores hold an executed block's own header, and its own part set in the saved ID. */
  lemma {:induction false} BlocksKept(hs: Hashing, bs: seq<Block>, i: nat)
    requires OncePerHeight(bs) && i < |bs|
    ensures var s, b := Run(hs, bs), bs[i];
            && b.header.height in s.headers && s.headers[b.header.height] == b.header
            && (b.header.height in s.blockIDs ==> s.blockIDs[b.header.height].parts == b.parts)
  {
    var n := |bs| - 1;
    var front := bs[..n];
    StoredHeights(hs, front);
    if i < n {
      BlocksKept(hs, front, i);
      assert bs[i].header.height != bs[n].header.height;
    } else {
      assert forall j :: 0 <= j < n ==> front[j].header.height != bs[n].header.height;
    }
  }

  /**
   After any run that executes each height once, the RPC commit of an executed block carries a
   header that shows the block's own, field by field, and hashes to the block ID in its commit;
   the commit is signed by the block's proposer; and above height 1 the header links to the
   block ID saved one height below and to the commit for it.
   */
  lemma HeaderAndCommitAgree(hs: Hashing, bs: seq<Block>, i: nat)
    requires OncePerHeight(bs) && i < |bs|
    requires bs[i].header.height in Run(hs, bs).blockIDs && 0 < bs[i].header.height < TWO_64 - 1
    ensures var s, height := Run(hs, bs), bs[i].header.height;
            && height in s.headers && s.headers[height] == bs[i].header && s.blockIDs[height].parts == bs[i].parts
            && Agrees(hs, s, height)
  {
    var height := bs[i].header.height;
    RunAnchored(hs, bs, height);
    BlocksKept(hs, bs, i);
    AnchoredAgrees(hs, Run(hs, bs), height);
  }

  /** A block is executed exactly when it names a proposer and, above height 1, the one below was executed. */
  lemma ExecutesExactly(hs: Hashing, s: Stores, height: uint64, h: RollkitHeader, parts: PartSetHeader)
    ensures var r := ExecuteSpec(hs, s, height, h, parts).1;
            && (r.Ok? <==> && h.proposerAddress != ""
                           && (height > 1 ==> height - 1 in s.headers && height - 1 in s.blockIDs))
            && (r == Err(NoHeader) ==> height > 1 && height - 1 !in s.headers)
            && (r == Err(NoBlockID) ==> height > 1 && height - 1 in s.headers && height - 1 !in s.blockIDs)
            && (r == Err(NoProposer) ==> h.proposerAddress == "")
  {
  }

  /** The heights executed in order from 1, each with a proposer. */
  predicate InOrder(bs: seq<Block>) {
    forall i :: 0 <= i < |bs| ==> bs[i].header.height == i + 1 && bs[i].header.proposerAddress != ""
  }

  /** A chain executed in order from height 1 fails nowhere: every height gets its block ID. */
  lemma {:induction false} InOrderExecutes(hs: Hashing, bs: seq<Block>)
    requires InOrder(bs)
    ensures OncePerHeight(bs)
    ensures forall h: uint64 :: h in Run(hs, bs).blockIDs <==> 1 <= h <= |bs|
    ensures forall h: uint64 :: h in Run(hs, bs).headers <==> 1 <= h <= |bs|
  {
    if bs != [] {
      var front := bs[..|bs| - 1];
      assert InOrder(front);
      InOrderExecutes(hs, front);
    }
  }

  /** The RPC has no answer without a header to rebuild, and fails for a height whose block ID is missing. */
  lemma RpcAnswers(hs: Hashing, s: Stores, height: uint64)
    requires height < TWO_64 - 1
    ensures var shown := height in s.headers && s.headers[height].proposerAddress != ""
                         && (height > 1 ==> height - 1 in s.headers && height - 1 in s.blockIDs);
            && (RpcCommit(hs, s, height) == Ok(None) <==> !shown)
            && (RpcCommit(hs, s, height) == Err(NoBlockID) <==> shown && height > 0 && height !in s.blockIDs)
            && RpcCommit(hs, s, height) != Err(NoHeader) && RpcCommit(hs, s, height) != Err(NoProposer)
  {
    Wraps(height + 1);
  }
}
