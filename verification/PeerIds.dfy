/** The peer ID allocator of the mempool: a wrapping 16-bit search for a free slot. */
module PeerIds {
  import opened Common

  const MAX_ACTIVE_IDS: nat := 0xFFFF

  /** The three fields of the allocator; a peer is its ID string. */
  datatype Ids = Ids(peerMap: map<string, uint16>, nextID: uint16, activeIDs: set<uint16>)

  const FRESH := Ids(map[], 1, {0})

  function Wrap(id: int): uint16 {
    Uint16(id)
  }

  /** The ID j steps after `start`. */
  function Nth(start: uint16, j: nat): uint16 {
    Wrap(start + j)
  }

  /** `id` is the first ID outside `active` met from `start` on, wrapping around after 65535. */
  ghost predicate FirstFree(active: set<uint16>, start: uint16, id: uint16) {
    id !in active && exists d: nat :: FreeAfter(active, start, id, d)
  }

  ghost predicate FreeAfter(active: set<uint16>, start: uint16, id: uint16, d: nat) {
    id == Nth(start, d) && forall j: nat :: j < d ==> Nth(start, j) in active
  }

  /** The search has one answer. */
  lemma FirstFreeUnique(active: set<uint16>, start: uint16, a: uint16, b: uint16)
    requires FirstFree(active, start, a) && FirstFree(active, start, b)
    ensures a == b
  {
    var d: nat :| FreeAfter(active, start, a, d);
    var e: nat :| FreeAfter(active, start, b, e);
    assert d < e ==> Nth(start, d) in active;
    assert e < d ==> Nth(start, e) in active;
  }

  /** Fewer than 2^16 members leave an ID free. */
  lemma SomeFree(active: set<uint16>)
    requires |active| < TWO_16
    ensures exists id: uint16 :: id !in active
  {
    if forall id: uint16 :: id in active {
      AllIds(TWO_16);
      SubsetSize(IdsBelow(TWO_16), active);
    }
  }

  ghost function IdsBelow(n: nat): set<uint16>
    requires n <= TWO_16
  {
    if n == 0 then {} else IdsBelow(n - 1) + {n - 1}
  }

  lemma {:induction false} AllIds(n: nat)
    requires n <= TWO_16
    ensures |IdsBelow(n)| == n && forall id: uint16 :: id in IdsBelow(n) <==> id < n
  {
    if n > 0 { AllIds(n - 1); }
  }

  lemma {:induction false} SubsetSize<T>(a: set<T>, b: set<T>)
    requires a <= b
    ensures |a| <= |b|
    decreases |a|
  {
    if a != {} {
      var x :| x in a;
      SubsetSize(a - {x}, b - {x});
    }
  }

  /** How far the search from `at` is from `goal`. */
  function Distance(at: uint16, goal: uint16): nat {
    if at <= goal then goal - at else goal + TWO_16 - at
  }

  lemma OneCloser(at: uint16, goal: uint16)
    requires at != goal
    ensures Distance(Wrap(at + 1), goal) < Distance(at, goal)
  {
  }

  lemma NthNext(start: uint16, d: nat)
    ensures Nth(start, d + 1) == Wrap(Nth(start, d) + 1)
  {
  }

  lemma OneFurther(active: set<uint16>, start: uint16, at: uint16, d: nat, d': nat)
    requires FreeAfter(active, start, at, d) && at in active && d' == d + 1
    ensures FreeAfter(active, start, Wrap(at + 1), d')
  {
    NthNext(start, d);
    forall j: nat | j < d' ensures Nth(start, j) in active {
      assert j == d || j < d;
    }
  }

  class MempoolIDs {
    var peerMap: map<string, uint16>
    var nextID: uint16
    var activeIDs: set<uint16>

    function View(): Ids
      reads this
    {
      Ids(peerMap, nextID, activeIDs)
    }

    constructor ()
      ensures View() == FRESH
    {
      peerMap, nextID, activeIDs := map[], 1, {0};
    }

    /** None is the panic at the maximum. The search ends because some ID is free. */
    method NextPeerID() returns (r: Option<uint16>)
      requires |activeIDs| <= MAX_ACTIVE_IDS
      modifies this`nextID
      ensures r.None? <==> |activeIDs| == MAX_ACTIVE_IDS
      ensures r.None? ==> nextID == old(nextID)
      ensures r.Some? ==> FirstFree(activeIDs, old(nextID), r.value) && nextID == Wrap(r.value + 1)
    {
      if |activeIDs| == MAX_ACTIVE_IDS { return None; }
      SomeFree(activeIDs);
      ghost var goal: uint16 :| goal !in activeIDs;
      ghost var d: nat := 0;
      while nextID in activeIDs
        invariant FreeAfter(activeIDs, old(nextID), nextID, d)
        decreases Distance(nextID, goal)
      {
        OneFurther(activeIDs, old(nextID), nextID, d, d + 1);
        OneCloser(nextID, goal);
        nextID := Wrap(nextID + 1);
        d := d + 1;
      }
      var curID := nextID;
      nextID := Wrap(nextID + 1);
      return Some(curID);
    }

    method ReserveForPeer(peer: string) returns (ok: bool)
      requires |activeIDs| <= MAX_ACTIVE_IDS
      modifies this
      ensures ok <==> old(|activeIDs|) < MAX_ACTIVE_IDS
      ensures Reserved(old(View()), View(), peer, ok)
    {
      var id := NextPeerID();
      if id.None? { return false; }
      peerMap := peerMap[peer := id.value];
      activeIDs := activeIDs + {id.value};
      return true;
    }

    method Reclaim(peer: string)
      modifies this`peerMap, this`activeIDs
      ensures View() == ReclaimSpec(old(View()), peer)
    {
      if peer in peerMap {
        var removedID := peerMap[peer];
        activeIDs := activeIDs - {removedID};
        peerMap := peerMap - {peer};
      }
    }

    method GetForPeer(peer: string) returns (r: Option<uint16>)
      requires |activeIDs| <= MAX_ACTIVE_IDS
      modifies this
      ensures if peer in old(peerMap)
              then r == Some(old(peerMap)[peer]) && View() == old(View())
              else r.Some? == (old(|activeIDs|) < MAX_ACTIVE_IDS) && Reserved(old(View()), View(), peer, r.Some?)
      ensures r.Some? ==> peer in peerMap && peerMap[peer] == r.value
    {
      if peer in peerMap { return Some(peerMap[peer]); }
      var id := NextPeerID();
      if id.None? { return None; }
      peerMap := peerMap[peer := id.value];
      activeIDs := activeIDs + {id.value};
      return id;
    }
  }

  // ---------------------------------------------------------------- steps, on values

  /** A reservation hands the peer the first free ID; at the maximum it panics and changes nothing. */
  ghost predicate Reserved(a: Ids, b: Ids, peer: string, ok: bool) {
    if ok then
      exists id: uint16 ::
        FirstFree(a.activeIDs, a.nextID, id) && b == Ids(a.peerMap[peer := id], Wrap(id + 1), a.activeIDs + {id})
    else b == a
  }

  function ReclaimSpec(a: Ids, peer: string): Ids {
    if peer in a.peerMap
    then a.(peerMap := a.peerMap - {peer}, activeIDs := a.activeIDs - {a.peerMap[peer]})
    else a
  }

  datatype Op = Reserve(peer: string) | Reclaim(peer: string) | Get(peer: string)

  /** One locked method call takes a to b. */
  ghost predicate Step(a: Ids, op: Op, b: Ids) {
    match op
    case Reserve(p) => Reserved(a, b, p, |a.activeIDs| < MAX_ACTIVE_IDS)
    case Reclaim(p) => b == ReclaimSpec(a, p)
    case Get(p) => if p in a.peerMap then b == a else Reserved(a, b, p, |a.activeIDs| < MAX_ACTIVE_IDS)
  }

  /** A history: states[i] becomes states[i+1] by ops[i]. */
  ghost predicate History(states: seq<Ids>, ops: seq<Op>) {
    && |states| == |ops| + 1
    && states[0] == FRESH
    && forall i :: 0 <= i < |ops| ==> Step(states[i], ops[i], states[i + 1])
  }

  // ---------------------------------------------------------------- what every history keeps

  ghost predicate Safe(s: Ids) {
    && (forall p, q :: p in s.peerMap && q in s.peerMap && p != q ==> s.peerMap[p] != s.peerMap[q])
    && (forall p :: p in s.peerMap ==> s.peerMap[p] != 0 && s.peerMap[p] in s.activeIDs)
    && 0 in s.activeIDs
    && |s.activeIDs| <= MAX_ACTIVE_IDS
  }

  lemma ReserveSafe(a: Ids, b: Ids, peer: string)
    requires Safe(a) && Reserved(a, b, peer, |a.activeIDs| < MAX_ACTIVE_IDS)
    ensures Safe(b)
  {
    if |a.activeIDs| < MAX_ACTIVE_IDS {
      var id: uint16 :| FirstFree(a.activeIDs, a.nextID, id)
                        && b == Ids(a.peerMap[peer := id], Wrap(id + 1), a.activeIDs + {id});
      assert |b.activeIDs| == |a.activeIDs| + 1;
    }
  }

  lemma ReclaimSafe(a: Ids, peer: string)
    requires Safe(a)
    ensures Safe(ReclaimSpec(a, peer))
  {
    SubsetSize(ReclaimSpec(a, peer).activeIDs, a.activeIDs);
  }

  /** On every history no two peers share an ID, IDs are active and non-zero, and 0 stays active. */
  lemma {:induction false} HistorySafe(states: seq<Ids>, ops: seq<Op>)
    requires History(states, ops)
    ensures Safe(states[|ops|])
  {
    if ops == [] {
    } else {
      var n := |ops| - 1;
      assert History(states[..n + 1], ops[..n]);
      HistorySafe(states[..n + 1], ops[..n]);
      assert Step(states[n], ops[n], states[n + 1]);
      match ops[n]
      case Reserve(p) => ReserveSafe(states[n], states[n + 1], p);
      case Reclaim(p) => ReclaimSafe(states[n], p);
      case Get(p) => if p !in states[n].peerMap { ReserveSafe(states[n], states[n + 1], p); }
    }
  }

  /** Active IDs are the mapped ones and 0: nothing has leaked. */
  ghost predicate Tight(s: Ids) {
    s.activeIDs == s.peerMap.Values + {0}
  }

  lemma NewPeerValues(m: map<string, uint16>, peer: string, id: uint16)
    requires peer !in m
    ensures m[peer := id].Values == m.Values + {id}
  {
    var m' := m[peer := id];
    assert m'[peer] == id;
    forall x | x in m.Values ensures x in m'.Values {
      var q :| q in m && m[q] == x;
      assert m'[q] == x;
    }
  }

  lemma KnownPeerValues(m: map<string, uint16>, peer: string, id: uint16)
    requires peer in m && id != m[peer]
    requires forall p, q :: p in m && q in m && p != q ==> m[p] != m[q]
    ensures m[peer] !in m[peer := id].Values
  {
    var m' := m[peer := id];
    forall q | q in m' ensures m'[q] != m[peer] {
      assert q != peer ==> m[q] != m[peer];
    }
  }

  /** From a tight state below the maximum, a reservation leaks an ID exactly when the peer was known. */
  lemma ReserveLeaks(a: Ids, b: Ids, peer: string)
    requires Safe(a) && Tight(a) && |a.activeIDs| < MAX_ACTIVE_IDS && Reserved(a, b, peer, true)
    ensures Tight(b) <==> peer !in a.peerMap
    ensures peer in a.peerMap ==> a.peerMap[peer] in b.activeIDs && a.peerMap[peer] !in b.peerMap.Values
  {
    var id: uint16 :| FirstFree(a.activeIDs, a.nextID, id)
                      && b == Ids(a.peerMap[peer := id], Wrap(id + 1), a.activeIDs + {id});
    GivenLeaks(a.peerMap, a.activeIDs, peer, id);
  }

  lemma GivenLeaks(m: map<string, uint16>, active: set<uint16>, peer: string, id: uint16)
    requires forall p, q :: p in m && q in m && p != q ==> m[p] != m[q]
    requires active == m.Values + {0} && 0 !in m.Values && id !in active
    ensures active + {id} == m[peer := id].Values + {0} <==> peer !in m
    ensures peer in m ==> m[peer] in active && m[peer] !in m[peer := id].Values
  {
    if peer in m {
      KnownPeerValues(m, peer, id);
      assert m[peer] in active + {id};
    } else {
      NewPeerValues(m, peer, id);
    }
  }

  lemma ReclaimTight(a: Ids, peer: string)
    requires Safe(a) && Tight(a)
    ensures Tight(ReclaimSpec(a, peer))
  {
    var b := ReclaimSpec(a, peer);
    if peer in a.peerMap {
      forall x | x in a.activeIDs && x != a.peerMap[peer] && x != 0 ensures x in b.peerMap.Values {
        var q :| q in a.peerMap && a.peerMap[q] == x;
        assert b.peerMap[q] == x;
      }
    }
  }

  /** A reservation for a known peer, below the maximum: at the maximum it panics before it writes. */
  predicate Leaks(s: Ids, op: Op) {
    op.Reserve? && |s.activeIDs| < MAX_ACTIVE_IDS && op.peer in s.peerMap
  }

  /** An active ID that no peer holds stays so: a leak is never healed. */
  lemma LeakStays(a: Ids, op: Op, b: Ids, id: uint16)
    requires Safe(a) && Step(a, op, b) && id in a.activeIDs && id !in a.peerMap.Values
    ensures id in b.activeIDs && id !in b.peerMap.Values
  {
    forall p | p in b.peerMap ensures b.peerMap[p] != id {
      assert p in a.peerMap ==> a.peerMap[p] in a.peerMap.Values;
    }
    if op.Reclaim? && op.peer in a.peerMap {
      assert a.peerMap[op.peer] in a.peerMap.Values;
    }
  }

  lemma StepTight(a: Ids, op: Op, b: Ids)
    requires Safe(a) && Step(a, op, b)
    ensures Tight(b) <==> Tight(a) && !Leaks(a, op)
  {
    if !Tight(a) {
      var id :| id in a.activeIDs && id !in a.peerMap.Values + {0};
      LeakStays(a, op, b, id);
    } else if op.Reclaim? {
      ReclaimTight(a, op.peer);
    } else if |a.activeIDs| < MAX_ACTIVE_IDS && (op.Reserve? || op.peer !in a.peerMap) {
      ReserveLeaks(a, b, op.peer);
    }
  }

  ghost predicate NeverLeaks(states: seq<Ids>, ops: seq<Op>)
    requires |states| == |ops| + 1
  {
    forall i :: 0 <= i < |ops| ==> !Leaks(states[i], ops[i])
  }

  lemma NeverLeaksLast(states: seq<Ids>, ops: seq<Op>, n: nat)
    requires |states| == |ops| + 1 && |ops| == n + 1
    ensures NeverLeaks(states, ops) <==> NeverLeaks(states[..n + 1], ops[..n]) && !Leaks(states[n], ops[n])
  {
    assert forall i :: 0 <= i < n ==> states[..n + 1][i] == states[i] && ops[..n][i] == ops[i];
  }

  /** The active IDs are the mapped ones and 0 exactly on the histories in which no call has leaked one. */
  lemma {:induction false} HistoryTight(states: seq<Ids>, ops: seq<Op>)
    requires History(states, ops)
    ensures Tight(states[|ops|]) <==> NeverLeaks(states, ops)
  {
    if ops != [] {
      var n := |ops| - 1;
      var states0, ops0 := states[..n + 1], ops[..n];
      assert History(states0, ops0);
      HistoryTight(states0, ops0);
      HistorySafe(states0, ops0);
      StepTight(states[n], ops[n], states[n + 1]);
      NeverLeaksLast(states, ops, n);
    }
  }

  /** The first k reservations for one peer, made in a row by a fresh allocator, keep k IDs busy: the 65535th panics. */
  lemma {:induction false} RereservingExhausts(states: seq<Ids>, ops: seq<Op>, peer: string)
    requires History(states, ops) && forall i :: 0 <= i < |ops| ==> ops[i] == Reserve(peer)
    ensures |states[|ops|].activeIDs| == Min(|ops| + 1, MAX_ACTIVE_IDS)
  {
    if ops != [] {
      var n := |ops| - 1;
      assert History(states[..n + 1], ops[..n]);
      RereservingExhausts(states[..n + 1], ops[..n], peer);
      assert Step(states[n], ops[n], states[n + 1]);
    }
  }

  // ---------------------------------------------------------------- no ID is given twice before the counter wraps

  /** A call that hands out a new ID. */
  predicate Gives(s: Ids, op: Op) {
    |s.activeIDs| < MAX_ACTIVE_IDS && (op.Reserve? || (op.Get? && op.peer !in s.peerMap))
  }

  /** How many IDs a history has handed out. */
  function Given(states: seq<Ids>, ops: seq<Op>): nat
    requires |states| == |ops| + 1
  {
    if ops == [] then 0
    else
      var n := |ops| - 1;
      Given(states[..n + 1], ops[..n]) + (if Gives(states[n], ops[n]) then 1 else 0)
  }

  /** n IDs were given, in a row from 1, and only those were ever active. */
  ghost predicate Fresh(s: Ids, n: nat) {
    s.nextID == n + 1 && forall id :: id in s.activeIDs ==> id <= n
  }

  lemma GiveNext(a: Ids, b: Ids, peer: string, n: nat, n': nat)
    requires Fresh(a, n) && n' == n + 1 < MAX_ACTIVE_IDS && Reserved(a, b, peer, true)
    ensures Fresh(b, n') && peer in b.peerMap && b.peerMap[peer] == n' && n' !in a.activeIDs
  {
    var id: uint16 :| FirstFree(a.activeIDs, a.nextID, id)
                      && b == Ids(a.peerMap[peer := id], Wrap(id + 1), a.activeIDs + {id});
    Narrow(n');
    assert FreeAfter(a.activeIDs, a.nextID, a.nextID, 0);
    FirstFreeUnique(a.activeIDs, a.nextID, id, a.nextID);
    Narrow(n' + 1);
  }

  lemma StepFresh(a: Ids, op: Op, b: Ids, n: nat, n': nat)
    requires Step(a, op, b) && Fresh(a, n) && n' == (if Gives(a, op) then n + 1 else n) && n' < MAX_ACTIVE_IDS
    ensures Fresh(b, n')
    ensures Gives(a, op) ==> op.peer in b.peerMap && b.peerMap[op.peer] == n' && n' !in a.activeIDs
  {
    if Gives(a, op) { GiveNext(a, b, op.peer, n, n'); }
  }

  /**
   While fewer than 65535 IDs have been handed out, whatever was reclaimed, the next one is the
   number of those before it plus one: no ID is given twice.
   */
  lemma {:induction false} NoEarlyReuse(states: seq<Ids>, ops: seq<Op>)
    requires History(states, ops) && Given(states, ops) < MAX_ACTIVE_IDS
    ensures Fresh(states[|ops|], Given(states, ops))
    ensures ops != [] && Gives(states[|ops| - 1], ops[|ops| - 1]) ==>
              var peer := ops[|ops| - 1].peer;
              peer in states[|ops|].peerMap && states[|ops|].peerMap[peer] == Given(states, ops)
  {
    if ops != [] {
      var n := |ops| - 1;
      var states0, ops0 := states[..n + 1], ops[..n];
      assert History(states0, ops0);
      NoEarlyReuse(states0, ops0);
      StepFresh(states[n], ops[n], states[n + 1], Given(states0, ops0), Given(states, ops));
    }
  }
}
