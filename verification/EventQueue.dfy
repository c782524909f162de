/**
 The adapter's queue of block events: blocks that may not be published yet are stacked, and
 finality releases a prefix of the stack.
 */
module EventQueue {
  import opened Common

  /** A block height, for which the conversions between int64 and uint64 are the identity. */
  type Height = h: int | 0 <= h < TWO_63

  datatype Block = Block(height: Height, txs: seq<string>, evidence: seq<string>)

  /** What the store keeps of a FinalizeBlock response. */
  datatype Response = Response(events: seq<string>, txResults: seq<string>)

  datatype Message =
    | NewBlock(block: Block, blockID: string, response: Response)
    | NewBlockHeader(header: Block)
    | NewBlockEvents(height: Height, events: seq<string>, numTxs: nat)
    | NewEvidence(evidence: string, at: Height)
    | Tx(txHeight: Height, index: nat, tx: string, result: string)
    | ValidatorSetUpdates(updates: seq<string>)

  /** A queued block, with its response as it reads now. */
  datatype Entry = Entry(block: Block, blockID: string, response: Response, updates: seq<string>)
  {
    /** The application answered every transaction. */
    predicate Answered() {
      |response.txResults| == |block.txs|
    }
  }

  datatype State = State(stack: seq<Entry>, responses: map<Height, Response>, bus: seq<Message>)

  /** What happens around one entry: nothing, a cancelled context, or a failing store or event bus. */
  datatype Weather = Fine | Cancelled | GetFails | SaveFails | BusFails(after: nat)

  function Accepted(w: Weather, messages: seq<Message>): seq<Message> {
    if w.BusFails? && w.after < |messages| then messages[..w.after] else messages
  }

  predicate BusOk(w: Weather, messages: seq<Message>) {
    !(w.BusFails? && w.after < |messages|)
  }

  // ---------------------------------------------------------------- the events of one block

  function EvidenceMessages(b: Block): seq<Message> {
    seq(|b.evidence|, i requires 0 <= i < |b.evidence| => NewEvidence(b.evidence[i], b.height))
  }

  function TxMessages(e: Entry): seq<Message>
    requires e.Answered()
  {
    seq(|e.block.txs|, i requires 0 <= i < |e.block.txs| =>
      Tx(e.block.height, i, e.block.txs[i], e.response.txResults[i]))
  }

  function Messages(e: Entry): seq<Message>
    requires e.Answered()
  {
    [NewBlock(e.block, e.blockID, e.response),
     NewBlockHeader(e.block),
     NewBlockEvents(e.block.height, e.response.events, |e.block.txs|)]
    + EvidenceMessages(e.block)
    + TxMessages(e)
    + (if e.updates == [] then [] else [ValidatorSetUpdates(e.updates)])
  }

  // ---------------------------------------------------------------- steps, on values

  predicate AllAnswered(stack: seq<Entry>) {
    forall i :: 0 <= i < |stack| ==> stack[i].Answered()
  }

  /** The last part of ExecuteTxs; false is an error return. */
  function ExecuteSpec(st: State, e: Entry, publishable: bool, w: Weather): (State, bool)
    requires e.Answered()
  {
    var height := e.block.height;
    if publishable then
      if w.SaveFails? then (st, false)
      else
        (st.(responses := st.responses[height := e.response], bus := st.bus + Accepted(w, Messages(e))),
         BusOk(w, Messages(e)))
    else
      var cleared := e.response.(events := []);
      var st1 := st.(stack := st.stack + [e.(response := cleared)]);
      if w.SaveFails? then (st1, false)
      else (st1.(responses := st.responses[height := cleared]), true)
  }

  /** The last stack position at or below the persisted height that may be published; -1 for none. */
  function LastReleasable(stack: seq<Entry>, persisted: Height, filter: Height -> bool): (p: int)
    ensures -1 <= p < |stack|
  {
    if stack == [] then -1
    else
      var h := stack[|stack| - 1].block.height;
      if h <= persisted && filter(h) then |stack| - 1
      else LastReleasable(stack[..|stack| - 1], persisted, filter)
  }

  /** Releasing one entry; false is an error return. */
  function ReleaseEntry(st: State, e: Entry, w: Weather): (State, bool)
    requires e.Answered()
  {
    if w.GetFails? || e.block.height !in st.responses || w.SaveFails? then (st, false)
    else
      var stored := st.responses[e.block.height].(events := e.response.events);
      (st.(responses := st.responses[e.block.height := stored], bus := st.bus + Accepted(w, Messages(e))),
       BusOk(w, Messages(e)))
  }

  /** The release loop at position i, with the positions up to `last` to go. */
  function ReleaseFrom(st: State, i: nat, last: nat, env: nat -> Weather): (State, bool)
    requires last < |st.stack| && i <= last + 1 && AllAnswered(st.stack)
    decreases last + 1 - i
  {
    if i > last then (st.(stack := st.stack[last + 1..]), true)
    else if env(i).Cancelled? then (st.(stack := st.stack[i + 1..]), true)
    else
      var (st1, ok) := ReleaseEntry(st, st.stack[i], env(i));
      if ok then ReleaseFrom(st1, i + 1, last, env) else (st1, false)
  }

  function SetFinalSpec(st: State, persisted: Height, filter: Height -> bool, env: nat -> Weather): (State, bool)
    requires AllAnswered(st.stack)
  {
    var last := LastReleasable(st.stack, persisted, filter);
    if last == -1 then (st, true) else ReleaseFrom(st, 0, last, env)
  }

  // ---------------------------------------------------------------- the adapter

  /** The response object: the stack keeps a reference to it, so clearing its events is seen there. */
  class FinalizeResponse {
    var events: seq<string>
    const txResults: seq<string>

    constructor (events: seq<string>, txResults: seq<string>)
      ensures this.events == events && this.txResults == txResults
    {
      this.events, this.txResults := events, txResults;
    }

    function View(): Response
      reads this
    {
      Response(events, txResults)
    }
  }

  datatype StackedEvent = StackedEvent(
    block: Block,
    blockID: string,
    abciResponse: FinalizeResponse,
    updates: seq<string>)

  function ViewEntry(s: StackedEvent): Entry
    reads s.abciResponse
  {
    Entry(s.block, s.blockID, s.abciResponse.View(), s.updates)
  }

  function ViewStack(stack: seq<StackedEvent>): (r: seq<Entry>)
    reads set s | s in stack :: s.abciResponse
    ensures |r| == |stack|
    ensures forall i :: 0 <= i < |stack| ==> r[i] == ViewEntry(stack[i])
  {
    seq(|stack|, i reads (set s | s in stack :: s.abciResponse) requires 0 <= i < |stack| => ViewEntry(stack[i]))
  }

  lemma ViewSuffix(stack: seq<StackedEvent>, k: nat)
    requires k <= |stack|
    ensures ViewStack(stack[k..]) == ViewStack(stack)[k..]
  {
    var a, b := ViewStack(stack[k..]), ViewStack(stack)[k..];
    assert forall i :: 0 <= i < |a| ==> a[i] == ViewEntry(stack[k..][i]);
  }

  /** A stack reads the same while its responses are untouched. */
  twostate lemma ViewUnchanged(stack: seq<StackedEvent>)
    requires forall s :: s in stack ==> unchanged(s.abciResponse)
    ensures ViewStack(stack) == old(ViewStack(stack))
  {
  }

  class Adapter {
    var stackedEvents: seq<StackedEvent>
    var responses: map<Height, Response>
    var bus: seq<Message>

    function View(): State
      reads this, set s | s in stackedEvents :: s.abciResponse
    {
      State(ViewStack(stackedEvents), responses, bus)
    }

    constructor ()
      ensures View() == State([], map[], [])
    {
      stackedEvents, responses, bus := [], map[], [];
    }

    method FireEvents(e: Entry, w: Weather) returns (ok: bool)
      requires e.Answered()
      modifies this`bus
      ensures bus == old(bus) + Accepted(w, Messages(e)) && ok == BusOk(w, Messages(e))
    {
      var messages := [NewBlock(e.block, e.blockID, e.response),
                       NewBlockHeader(e.block),
                       NewBlockEvents(e.block.height, e.response.events, |e.block.txs|)];
      ghost var head := messages;
      for i := 0 to |e.block.evidence|
        invariant messages == head + EvidenceMessages(e.block)[..i]
      {
        messages := messages + [NewEvidence(e.block.evidence[i], e.block.height)];
      }
      ghost var middle := messages;
      for i := 0 to |e.block.txs|
        invariant messages == middle + TxMessages(e)[..i]
      {
        messages := messages + [Tx(e.block.height, i, e.block.txs[i], e.response.txResults[i])];
      }
      if |e.updates| > 0 { messages := messages + [ValidatorSetUpdates(e.updates)]; }
      assert messages == Messages(e);
      bus := bus + Accepted(w, messages);
      return BusOk(w, messages);
    }

    /** The end of ExecuteTxs, for a response object that nobody else holds. */
    method ExecuteTxs(block: Block, blockID: string, response: FinalizeResponse, updates: seq<string>,
                      publishable: bool, w: Weather) returns (ok: bool)
      requires |response.txResults| == |block.txs|
      requires forall s :: s in stackedEvents ==> s.abciResponse != response
      modifies this, response`events
      ensures (View(), ok) == old(ExecuteSpec(View(), Entry(block, blockID, response.View(), updates), publishable, w))
      ensures response.events == if publishable then old(response.events) else []
    {
      if publishable {
        if w.SaveFails? { return false; }
        responses := responses[block.height := response.View()];
        ok := FireEvents(Entry(block, blockID, response.View(), updates), w);
      } else {
        ghost var before := ViewStack(stackedEvents);
        stackedEvents := stackedEvents + [StackedEvent(block, blockID, response, updates)];
        response.events := [];
        ok := !w.SaveFails?;
        if ok { responses := responses[block.height := response.View()]; }
        assert ViewStack(stackedEvents)
            == before + [Entry(block, blockID, Response([], response.txResults), updates)];
      }
    }

    method FindLast(persisted: Height, filter: Height -> bool) returns (maxPosReleased: int)
      ensures maxPosReleased == LastReleasable(ViewStack(stackedEvents), persisted, filter)
    {
      maxPosReleased := -1;
      ghost var stack := ViewStack(stackedEvents);
      for i := 0 to |stackedEvents|
        invariant maxPosReleased == LastReleasable(stack[..i], persisted, filter)
      {
        assert stack[..i + 1][..i] == stack[..i];
        var h := stackedEvents[i].block.height;
        if h <= persisted && filter(h) { maxPosReleased := i; }
      }
      assert stack[..|stackedEvents|] == stack;
    }

    method Release(e: Entry, w: Weather) returns (ok: bool)
      requires e.Answered()
      modifies this`responses, this`bus
      ensures (State([], responses, bus), ok) == ReleaseEntry(State([], old(responses), old(bus)), e, w)
    {
      if w.GetFails? || e.block.height !in responses { return false; }
      var blockRsp := responses[e.block.height].(events := e.response.events);
      if w.SaveFails? { return false; }
      responses := responses[e.block.height := blockRsp];
      ok := FireEvents(e, w);
    }

    /** The release loop: `dropped` entries leave the stack when it ends without an error. */
    method ReleaseUpTo(last: nat, env: nat -> Weather) returns (dropped: nat, ok: bool)
      requires last < |stackedEvents| && AllAnswered(ViewStack(stackedEvents))
      modifies this`responses, this`bus
      ensures dropped <= |stackedEvents| && (!ok ==> dropped == 0)
      ensures (State(old(ViewStack(stackedEvents))[dropped..], responses, bus), ok)
           == old(ReleaseFrom(View(), 0, last, env))
    {
      ghost var stack := ViewStack(stackedEvents);
      ghost var st0 := View();
      var i := 0;
      while i <= last
        invariant i <= last + 1 && ViewStack(stackedEvents) == stack
        invariant ReleaseFrom(State(stack, responses, bus), i, last, env) == ReleaseFrom(st0, 0, last, env)
      {
        if env(i).Cancelled? { return i + 1, true; }
        ghost var before := State(stack, responses, bus);
        var released := Release(ViewEntry(stackedEvents[i]), env(i));
        assert ReleaseEntry(before, stack[i], env(i)) == (State(stack, responses, bus), released);
        if !released {
          assert stack[0..] == stack;
          return 0, false;
        }
        i := i + 1;
      }
      return last + 1, true;
    }

    method SetFinal(persisted: Height, filter: Height -> bool, env: nat -> Weather) returns (ok: bool)
      requires AllAnswered(ViewStack(stackedEvents))
      modifies this
      ensures (View(), ok) == old(SetFinalSpec(View(), persisted, filter, env))
    {
      var maxPosReleased := FindLast(persisted, filter);
      if maxPosReleased == -1 { return true; }
      var dropped: nat;
      dropped, ok := ReleaseUpTo(maxPosReleased, env);
      ViewUnchanged(stackedEvents);
      if ok {
        DropFront(dropped);
      } else {
        assert ViewStack(stackedEvents)[0..] == ViewStack(stackedEvents);
      }
    }

    method DropFront(n: nat)
      requires n <= |stackedEvents|
      modifies this`stackedEvents
      ensures View() == old(View()).(stack := old(View()).stack[n..])
    {
      ViewSuffix(stackedEvents, n);
      stackedEvents := stackedEvents[n..];
      ViewUnchanged(stackedEvents);
    }
  }
}
