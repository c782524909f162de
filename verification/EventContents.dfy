/** What the events of a block read like when they are announced and stored. */
module EventContents {
  import opened Common
  import opened EventQueue
  import opened EventRuns

  /** The executed entry as the queue and the store read it from then on. */
  function AsRead(op: Op): Entry
    requires op.Execute?
  {
    if op.publishable then op.entry else op.entry.(response := op.entry.response.(events := []))
  }

  // ---------------------------------------------------------------- heights are executed once

  lemma {:induction false} ExecutedFront(ops: seq<Op>)
    requires ops != [] && Increasing(Executed(ops))
    ensures Increasing(Executed(ops[..|ops| - 1]))
  {
    var front := ops[..|ops| - 1];
    assert Executed(ops)[..|Executed(front)|] == Executed(front);
    forall i, j | 0 <= i < j < |Executed(front)| ensures Executed(front)[i] < Executed(front)[j] {
      assert Executed(ops)[i] < Executed(ops)[j];
    }
  }

  lemma {:induction false} ExecutedHeight(ops: seq<Op>, i: nat)
    requires i < |ops| && ops[i].Execute?
    ensures ops[i].entry.block.height in Executed(ops)
  {
    if i < |ops| - 1 { ExecutedHeight(ops[..|ops| - 1], i); }
  }

  lemma {:induction false} OneOpPerHeight(ops: seq<Op>, i: nat, j: nat)
    requires Increasing(Executed(ops)) && i < j < |ops| && ops[i].Execute? && ops[j].Execute?
    ensures ops[i].entry.block.height != ops[j].entry.block.height
  {
    var n := |ops| - 1;
    var front := ops[..n];
    if j < n {
      ExecutedFront(ops);
      OneOpPerHeight(front, i, j);
    } else {
      ExecutedHeight(front, i);
      var k :| 0 <= k < |Executed(front)| && Executed(front)[k] == front[i].entry.block.height;
      assert Executed(ops)[k] < Executed(ops)[|Executed(front)|];
    }
  }

  lemma SameOp(ops: seq<Op>, i: nat, j: nat)
    requires Increasing(Executed(ops)) && i < |ops| && j < |ops| && ops[i].Execute? && ops[j].Execute?
    requires ops[i].entry.block.height == ops[j].entry.block.height
    ensures i == j
  {
    if i < j { OneOpPerHeight(ops, i, j); } else if j < i { OneOpPerHeight(ops, j, i); }
  }

  // ---------------------------------------------------------------- everything comes from an executed block

  /** The executed entries, as they read. */
  function Entries(ops: seq<Op>): seq<Entry> {
    if ops == [] then []
    else
      var op := ops[|ops| - 1];
      Entries(ops[..|ops| - 1]) + (if op.Execute? then [AsRead(op)] else [])
  }

  lemma {:induction false} EntryOf(ops: seq<Op>, e: Entry)
    requires e in Entries(ops)
    ensures exists i :: 0 <= i < |ops| && ops[i].Execute? && AsRead(ops[i]) == e
  {
    var front, op := ops[..|ops| - 1], ops[|ops| - 1];
    if e in Entries(front) {
      EntryOf(front, e);
      var i :| 0 <= i < |front| && front[i].Execute? && AsRead(front[i]) == e;
      assert ops[i] == front[i];
    } else {
      assert ops[|ops| - 1].Execute? && AsRead(ops[|ops| - 1]) == e;
    }
  }

  /** One entry per height. */
  predicate OnePerHeight(entries: seq<Entry>) {
    forall a, b :: a in entries && b in entries && a.block.height == b.block.height ==> a == b
  }

  lemma EntriesOnePerHeight(ops: seq<Op>)
    requires Increasing(Executed(ops))
    ensures OnePerHeight(Entries(ops))
  {
    forall a, b | a in Entries(ops) && b in Entries(ops) && a.block.height == b.block.height ensures a == b {
      EntryOf(ops, a);
      EntryOf(ops, b);
      var i :| 0 <= i < |ops| && ops[i].Execute? && AsRead(ops[i]) == a;
      var j :| 0 <= j < |ops| && ops[j].Execute? && AsRead(ops[j]) == b;
      SameOp(ops, i, j);
    }
  }

  predicate MessageFrom(m: Message, entries: seq<Entry>) {
    exists e :: e in entries && e.Answered() && m in Messages(e)
  }

  predicate ResponseFrom(h: Height, r: Response, entries: seq<Entry>) {
    exists e :: e in entries && e.block.height == h && e.response == r
  }

  /** Every stacked entry, every message and every stored response is one of these entries'. */
  predicate Traced(st: State, entries: seq<Entry>) {
    && (forall i :: 0 <= i < |st.stack| ==> st.stack[i] in entries)
    && (forall m :: m in st.bus ==> MessageFrom(m, entries))
    && (forall h :: h in st.responses ==> ResponseFrom(h, st.responses[h], entries))
  }

  lemma TracedMore(st: State, entries: seq<Entry>, e: Entry)
    requires Traced(st, entries)
    ensures Traced(st, entries + [e])
  {
    forall m | m in st.bus ensures MessageFrom(m, entries + [e]) {
      assert MessageFrom(m, entries);
      var x :| x in entries && x.Answered() && m in Messages(x);
      assert x in entries + [e];
    }
    forall h | h in st.responses ensures ResponseFrom(h, st.responses[h], entries + [e]) {
      assert ResponseFrom(h, st.responses[h], entries);
      var x :| x in entries && x.block.height == h && x.response == st.responses[h];
      assert x in entries + [e];
    }
  }

  /** Sending a part of an entry's messages and storing its response keeps everything traced. */
  lemma TracedSend(st: State, st': State, e: Entry, w: Weather, entries: seq<Entry>)
    requires Traced(st, entries) && e in entries && e.Answered() && st'.stack == st.stack
    requires st'.bus == st.bus + Accepted(w, Messages(e))
    requires st'.responses == st.responses[e.block.height := e.response]
    ensures Traced(st', entries)
  {
    forall m | m in st'.bus ensures MessageFrom(m, entries) {
      if m in st.bus { assert MessageFrom(m, entries); } else { assert m in Messages(e); }
    }
    forall h | h in st'.responses ensures ResponseFrom(h, st'.responses[h], entries) {
      if h != e.block.height { assert ResponseFrom(h, st.responses[h], entries); }
    }
  }

  lemma ExecuteTraced(st: State, op: Op, entries: seq<Entry>)
    requires AllAnswered(st.stack) && op.Execute? && op.entry.Answered() && Traced(st, entries)
    ensures Traced(Step(st, op), entries + [AsRead(op)])
  {
    var Execute(e, publishable, w) := op;
    var read, more := AsRead(op), entries + [AsRead(op)];
    TracedMore(st, entries, read);
    assert read in more;
    if publishable {
      if !w.SaveFails? { TracedSend(st, Step(st, op), e, w, more); }
    } else {
      WaitTraced(st, Step(st, op), read, more);
    }
  }

  lemma WaitTraced(st: State, st': State, read: Entry, entries: seq<Entry>)
    requires Traced(st, entries) && read in entries && st'.bus == st.bus && st'.stack == st.stack + [read]
    requires st'.responses == st.responses || st'.responses == st.responses[read.block.height := read.response]
    ensures Traced(st', entries)
  {
    forall h | h in st'.responses ensures ResponseFrom(h, st'.responses[h], entries) {
      if h in st.responses { assert ResponseFrom(h, st.responses[h], entries); }
    }
  }

  /** Putting an entry's events back into its stored response changes nothing: that response is the entry's. */
  lemma ReleaseTraced(st: State, i: nat, w: Weather, entries: seq<Entry>)
    requires i < |st.stack| && AllAnswered(st.stack) && Traced(st, entries) && OnePerHeight(entries)
    ensures Traced(ReleaseEntry(st, st.stack[i], w).0, entries)
    ensures ReleaseEntry(st, st.stack[i], w).0.stack == st.stack
  {
    var e := st.stack[i];
    var st1 := ReleaseEntry(st, e, w).0;
    if st1 != st {
      var h := e.block.height;
      assert ResponseFrom(h, st.responses[h], entries);
      var x :| x in entries && x.block.height == h && x.response == st.responses[h];
      assert x == e;
      TracedSend(st, st1, e, w, entries);
    }
  }

  lemma TracedRest(st: State, n: nat, entries: seq<Entry>)
    requires n <= |st.stack| && Traced(st, entries)
    ensures Traced(st.(stack := st.stack[n..]), entries)
  {
  }

  lemma LoopOn(st: State, i: nat, i': nat, last: nat, env: nat -> Weather)
    requires AllAnswered(st.stack) && i <= last < |st.stack| && i' == i + 1 && !env(i).Cancelled?
    ensures var next := ReleaseEntry(st, st.stack[i], env(i));
            && next.0.stack == st.stack
            && ReleaseFrom(st, i, last, env) == if next.1 then ReleaseFrom(next.0, i', last, env) else (next.0, false)
  {
  }

  lemma {:induction false} LoopTraced(st: State, i: nat, last: nat, env: nat -> Weather, entries: seq<Entry>)
    requires last < |st.stack| && i <= last + 1 && AllAnswered(st.stack)
    requires Traced(st, entries) && OnePerHeight(entries)
    ensures Traced(ReleaseFrom(st, i, last, env).0, entries)
    decreases last + 1 - i
  {
    if i > last {
      TracedRest(st, last + 1, entries);
    } else if env(i).Cancelled? {
      TracedRest(st, i + 1, entries);
    } else {
      var i', next := i + 1, ReleaseEntry(st, st.stack[i], env(i));
      ReleaseTraced(st, i, env(i), entries);
      LoopOn(st, i, i', last, env);
      if next.1 { LoopTraced(next.0, i', last, env, entries); }
    }
  }

  lemma FinalTraced(st: State, op: Op, entries: seq<Entry>)
    requires AllAnswered(st.stack) && op.Final? && Traced(st, entries) && OnePerHeight(entries)
    ensures Traced(Step(st, op), entries)
  {
    var last := LastReleasable(st.stack, op.persisted, op.filter);
    if last != -1 { LoopTraced(st, 0, last, op.env, entries); }
  }

  /** Over any run at increasing heights, in any weather, everything comes from an executed block. */
  lemma {:induction false} RunTraced(ops: seq<Op>)
    requires WellFormed(ops) && Increasing(Executed(ops))
    ensures Traced(Run(ops), Entries(ops))
  {
    if ops != [] {
      var front, op := ops[..|ops| - 1], ops[|ops| - 1];
      ExecutedFront(ops);
      RunTraced(front);
      if op.Execute? {
        ExecuteTraced(Run(front), op, Entries(front));
      } else {
        EntriesOnePerHeight(front);
        FinalTraced(Run(front), op, Entries(front));
        assert Entries(ops) == Entries(front);
      }
    }
  }

  // ---------------------------------------------------------------- what is announced and stored

  function Announcement(e: Entry): Message {
    NewBlockEvents(e.block.height, e.response.events, |e.block.txs|)
  }

  /** The block a message is about; validator updates do not say. */
  function HeightOf(m: Message): Option<Height> {
    match m
    case NewBlock(block, _, _) => Some(block.height)
    case NewBlockHeader(header) => Some(header.height)
    case NewBlockEvents(height, _, _) => Some(height)
    case NewEvidence(_, at) => Some(at)
    case Tx(height, _, _, _) => Some(height)
    case ValidatorSetUpdates(_) => None
  }

  /** Where each message of a block stands: block, header, events, evidence, transactions in order, updates if any. */
  predicate Layout(e: Entry, ms: seq<Message>) {
    var h, evidence, txs := e.block.height, e.block.evidence, e.block.txs;
    var n := 3 + |evidence|;
    && |e.response.txResults| == |txs|
    && |ms| == n + |txs| + (if e.updates == [] then 0 else 1)
    && ms[0] == NewBlock(e.block, e.blockID, e.response)
    && ms[1] == NewBlockHeader(e.block)
    && ms[2] == NewBlockEvents(h, e.response.events, |txs|)
    && (forall j :: 0 <= j < |evidence| ==> ms[3 + j] == NewEvidence(evidence[j], h))
    && (forall j :: 0 <= j < |txs| ==> ms[n + j] == Tx(h, j, txs[j], e.response.txResults[j]))
    && (e.updates != [] ==> ms[n + |txs|] == ValidatorSetUpdates(e.updates))
  }

  lemma MessagesLayout(e: Entry)
    requires e.Answered()
    ensures Layout(e, Messages(e))
  {
  }

  /** What a single message of an entry says. */
  predicate Says(e: Entry, m: Message) {
    match m
    case NewBlock(block, id, response) => block == e.block && id == e.blockID && response == e.response
    case NewBlockHeader(header) => header == e.block
    case NewBlockEvents(_, _, _) => m == Announcement(e)
    case NewEvidence(evidence, at) => evidence in e.block.evidence && at == e.block.height
    case Tx(height, index, tx, result) =>
      && height == e.block.height && index < |e.block.txs| && index < |e.response.txResults|
      && tx == e.block.txs[index] && result == e.response.txResults[index]
    case ValidatorSetUpdates(updates) => updates == e.updates && updates != []
  }

  lemma LayoutSays(e: Entry, ms: seq<Message>, p: nat)
    requires Layout(e, ms) && p < |ms|
    ensures Says(e, ms[p])
  {
    var n, txs := 3 + |e.block.evidence|, |e.block.txs|;
    if 3 <= p < n {
      assert ms[3 + (p - 3)] == NewEvidence(e.block.evidence[p - 3], e.block.height);
    } else if n <= p < n + txs {
      assert ms[n + (p - n)] == Tx(e.block.height, p - n, e.block.txs[p - n], e.response.txResults[p - n]);
    }
  }

  lemma InLayoutSays(e: Entry, ms: seq<Message>, m: Message)
    requires Layout(e, ms) && m in ms
    ensures Says(e, m) && (HeightOf(m).Some? ==> HeightOf(m) == Some(e.block.height))
  {
    var p :| 0 <= p < |ms| && ms[p] == m;
    LayoutSays(e, ms, p);
  }

  lemma EntrySays(e: Entry, m: Message)
    requires e.Answered() && m in Messages(e)
    ensures Says(e, m) && (HeightOf(m).Some? ==> HeightOf(m) == Some(e.block.height))
  {
    MessagesLayout(e);
    InLayoutSays(e, Messages(e), m);
  }

  lemma EntryIsRead(ops: seq<Op>, i: nat, e: Entry)
    requires Increasing(Executed(ops)) && i < |ops| && ops[i].Execute?
    requires e in Entries(ops) && e.block.height == ops[i].entry.block.height
    ensures e == AsRead(ops[i])
  {
    EntryOf(ops, e);
    var j :| 0 <= j < |ops| && ops[j].Execute? && AsRead(ops[j]) == e;
    SameOp(ops, i, j);
  }

  /**
   Over any run at increasing heights, in any weather, every message about an executed block says
   what that block says: its header, its evidence, each transaction with its own index and result.
   */
  lemma MessageIsRead(ops: seq<Op>, i: nat, m: Message)
    requires WellFormed(ops) && Increasing(Executed(ops)) && i < |ops| && ops[i].Execute? && m in Run(ops).bus
    requires HeightOf(m) == Some(ops[i].entry.block.height)
    ensures Says(AsRead(ops[i]), m)
  {
    RunTraced(ops);
    assert MessageFrom(m, Entries(ops));
    var e :| e in Entries(ops) && e.Answered() && m in Messages(e);
    EntrySays(e, m);
    EntryIsRead(ops, i, e);
  }

  /** Announced validator updates are those of some executed block. */
  lemma UpdatesAreExecuted(ops: seq<Op>, m: Message)
    requires WellFormed(ops) && Increasing(Executed(ops)) && m in Run(ops).bus && m.ValidatorSetUpdates?
    ensures exists i :: 0 <= i < |ops| && ops[i].Execute? && ops[i].entry.updates == m.updates
  {
    RunTraced(ops);
    assert MessageFrom(m, Entries(ops));
    var e :| e in Entries(ops) && e.Answered() && m in Messages(e);
    EntrySays(e, m);
    UpdatesOf(ops, e);
  }

  lemma UpdatesOf(ops: seq<Op>, e: Entry)
    requires e in Entries(ops)
    ensures exists i :: 0 <= i < |ops| && ops[i].Execute? && ops[i].entry.updates == e.updates
  {
    EntryOf(ops, e);
    var i :| 0 <= i < |ops| && ops[i].Execute? && AsRead(ops[i]) == e;
    assert ops[i].entry.updates == e.updates;
  }

  lemma ResponseIsRead(ops: seq<Op>, i: nat)
    requires WellFormed(ops) && Increasing(Executed(ops)) && i < |ops| && ops[i].Execute?
    requires ops[i].entry.block.height in Run(ops).responses
    ensures Run(ops).responses[ops[i].entry.block.height] == AsRead(ops[i]).response
  {
    RunTraced(ops);
    var h := ops[i].entry.block.height;
    assert ResponseFrom(h, Run(ops).responses[h], Entries(ops));
    var e :| e in Entries(ops) && e.block.height == h && e.response == Run(ops).responses[h];
    EntryIsRead(ops, i, e);
  }

  /**
   After any run at increasing heights, whatever was cancelled or failed, a block that had to wait
   has lost its events: every message that carries its events or its response carries none, and
   what is stored for it is its own response exactly when it was publishable at once or had no events.
   */
  lemma WaitingLosesEvents(ops: seq<Op>, i: nat)
    requires WellFormed(ops) && Increasing(Executed(ops)) && i < |ops| && ops[i].Execute?
    ensures var st, e, h := Run(ops), ops[i].entry, ops[i].entry.block.height;
            var events := if ops[i].publishable then e.response.events else [];
            && (h in st.responses ==>
                  && st.responses[h] == e.response.(events := events)
                  && (st.responses[h] == e.response <==> ops[i].publishable || e.response.events == []))
            && (forall m :: m in st.bus && m.NewBlockEvents? && m.height == h ==>
                  m == NewBlockEvents(h, events, |e.block.txs|))
            && (forall m :: m in st.bus && m.NewBlock? && m.block.height == h ==>
                  m.response == e.response.(events := events))
  {
    var st, h := Run(ops), ops[i].entry.block.height;
    if h in st.responses { ResponseIsRead(ops, i); }
    forall m | m in st.bus && HeightOf(m) == Some(h) ensures Says(AsRead(ops[i]), m) {
      MessageIsRead(ops, i, m);
    }
  }

  // ---------------------------------------------------------------- stored before announced

  predicate StoredFirst(st: State) {
    forall m :: m in st.bus && HeightOf(m).Some? ==> HeightOf(m).value in st.responses
  }

  lemma SendStoredFirst(st: State, st': State, e: Entry, w: Weather)
    requires StoredFirst(st) && e.Answered() && st'.bus == st.bus + Accepted(w, Messages(e))
    requires st.responses.Keys + {e.block.height} <= st'.responses.Keys
    ensures StoredFirst(st')
  {
    forall m | m in st'.bus && HeightOf(m).Some? ensures HeightOf(m).value in st'.responses.Keys {
      if m !in st.bus { EntrySays(e, m); }
    }
  }

  lemma ExecuteStoredFirst(st: State, op: Op)
    requires AllAnswered(st.stack) && op.Execute? && op.entry.Answered() && StoredFirst(st)
    ensures StoredFirst(Step(st, op))
  {
    if op.publishable && !op.weather.SaveFails? {
      SendStoredFirst(st, Step(st, op), op.entry, op.weather);
    }
  }

  lemma {:induction false} LoopStoredFirst(st: State, i: nat, last: nat, env: nat -> Weather)
    requires last < |st.stack| && i <= last + 1 && AllAnswered(st.stack) && StoredFirst(st)
    ensures StoredFirst(ReleaseFrom(st, i, last, env).0)
    decreases last + 1 - i
  {
    if i <= last && !env(i).Cancelled? {
      var i', next := i + 1, ReleaseEntry(st, st.stack[i], env(i));
      if next.0 != st { SendStoredFirst(st, next.0, st.stack[i], env(i)); }
      LoopOn(st, i, i', last, env);
      if next.1 { LoopStoredFirst(next.0, i', last, env); }
    }
  }

  /** Whatever is announced about a block, its response was stored before: over every run, in any weather. */
  lemma {:induction false} RunStoredFirst(ops: seq<Op>)
    requires WellFormed(ops)
    ensures StoredFirst(Run(ops))
  {
    if ops != [] {
      var front, op := ops[..|ops| - 1], ops[|ops| - 1];
      RunStoredFirst(front);
      if op.Execute? {
        ExecuteStoredFirst(Run(front), op);
      } else {
        var last := LastReleasable(Run(front).stack, op.persisted, op.filter);
        if last != -1 { LoopStoredFirst(Run(front), 0, last, op.env); }
      }
    }
  }

  // ---------------------------------------------------------------- nothing is missing after calm runs

  lemma StepStores(st: State, op: Op, executed: seq<Height>, overtaken: bool, h: Height)
    requires AllAnswered(st.stack) && (op.Execute? ==> op.entry.Answered()) && Calm(op)
    requires Good(st, executed, overtaken)
    requires h in st.responses || (op.Execute? && h == op.entry.block.height)
    ensures h in Step(st, op).responses
  {
    if op.Final? {
      FinalGood(st, executed, overtaken, op.persisted, op.filter, op.env);
    }
  }

  /** After any calm run the store has every executed block. */
  lemma {:induction false} RunStored(ops: seq<Op>, i: nat, h: Height)
    requires WellFormed(ops) && AllCalm(ops) && Increasing(Executed(ops))
    requires i < |ops| && ops[i].Execute? && h == ops[i].entry.block.height
    ensures h in Run(ops).responses
  {
    var n := |ops| - 1;
    var front := ops[..n];
    ExecutedFront(ops);
    RunGood(front);
    if i < n { RunStored(front, i, h); }
    StepStores(Run(front), ops[n], Executed(front), Overtaken(front), h);
  }

  /** The entries fired so far, in order. */
  function Sent(ops: seq<Op>): seq<Entry>
    requires WellFormed(ops)
  {
    if ops == [] then []
    else
      var front, op := ops[..|ops| - 1], ops[|ops| - 1];
      match op
      case Execute(e, publishable, _) => Sent(front) + (if publishable then [e] else [])
      case Final(persisted, filter, _) =>
        Sent(front) + Run(front).stack[..Released(Run(front), persisted, filter)]
  }

  lemma AllMessagesCons(e: Entry, es: seq<Entry>)
    requires e.Answered() && AllAnswered(es)
    ensures AllAnswered([e] + es) && AllMessages([e] + es) == Messages(e) + AllMessages(es)
  {
    assert ([e] + es)[1..] == es;
  }

  lemma Associate(x: seq<Message>, y: seq<Message>, z: seq<Message>)
    ensures x + (y + z) == x + y + z
  {
  }

  lemma {:induction false} AllMessagesAppend(a: seq<Entry>, b: seq<Entry>)
    requires AllAnswered(a) && AllAnswered(b)
    ensures AllAnswered(a + b) && AllMessages(a + b) == AllMessages(a) + AllMessages(b)
  {
    if a == [] {
      assert a + b == b;
    } else {
      var e, es := a[0], a[1..];
      AllMessagesAppend(es, b);
      AllMessagesCons(e, es);
      AllMessagesCons(e, es + b);
      assert a == [e] + es && a + b == [e] + (es + b);
      Associate(Messages(e), AllMessages(es), AllMessages(b));
    }
  }

  lemma OneEntry(e: Entry)
    requires e.Answered()
    ensures AllMessages([e]) == Messages(e)
  {
    assert [e][1..] == [];
  }

  /** The bus is what these entries sent. */
  predicate Carries(st: State, sent: seq<Entry>) {
    AllAnswered(sent) && st.bus == AllMessages(sent)
  }

  lemma ExecuteCarries(st: State, op: Op, sent: seq<Entry>)
    requires AllAnswered(st.stack) && op.Execute? && op.entry.Answered() && Calm(op) && Carries(st, sent)
    ensures Carries(Step(st, op), sent + (if op.publishable then [op.entry] else []))
  {
    if op.publishable {
      OneEntry(op.entry);
      AllMessagesAppend(sent, [op.entry]);
    } else {
      assert sent + [] == sent;
    }
  }

  lemma FinalCarries(st: State, op: Op, sent: seq<Entry>)
    requires AllAnswered(st.stack) && op.Final? && Calm(op) && Stored(st) && Carries(st, sent)
    ensures Carries(Step(st, op), sent + st.stack[..Released(st, op.persisted, op.filter)])
  {
    FinalState(st, op.persisted, op.filter, op.env);
    AllMessagesAppend(sent, st.stack[..Released(st, op.persisted, op.filter)]);
  }

  lemma {:induction false} RunCarries(ops: seq<Op>)
    requires WellFormed(ops) && AllCalm(ops) && Increasing(Executed(ops))
    ensures Carries(Run(ops), Sent(ops))
  {
    if ops != [] {
      var front, op := ops[..|ops| - 1], ops[|ops| - 1];
      ExecutedFront(ops);
      RunCarries(front);
      RunGood(front);
      if op.Execute? {
        ExecuteCarries(Run(front), op, Sent(front));
      } else {
        FinalCarries(Run(front), op, Sent(front));
      }
    }
  }

  /** A message with a height is sent by an entry of that height. */
  lemma {:induction false} SenderOf(es: seq<Entry>, m: Message)
    requires AllAnswered(es) && m in AllMessages(es) && HeightOf(m).Some?
    ensures HeightOf(m).value in Heights(es)
  {
    if m in Messages(es[0]) {
      EntrySays(es[0], m);
      assert Heights(es)[0] == HeightOf(m).value;
    } else {
      SenderOf(es[1..], m);
      var k :| 0 <= k < |es[1..]| && Heights(es[1..])[k] == HeightOf(m).value;
      assert Heights(es)[k + 1] == HeightOf(m).value;
    }
  }

  lemma NotAmong(es: seq<Entry>, h: Height)
    requires AllAnswered(es) && forall j :: 0 <= j < |es| ==> es[j].block.height != h
    ensures forall m :: m in AllMessages(es) ==> HeightOf(m) != Some(h)
  {
    forall m | m in AllMessages(es) ensures HeightOf(m) != Some(h) {
      if HeightOf(m) == Some(h) { SenderOf(es, m); }
    }
  }

  lemma SplitMessages(before: seq<Entry>, e: Entry, behind: seq<Entry>, tail: seq<Entry>)
    requires AllAnswered(before) && e.Answered() && AllAnswered(behind) && tail == [e] + behind
    ensures AllAnswered(before + tail)
    ensures AllMessages(before + tail) == AllMessages(before) + (Messages(e) + AllMessages(behind))
  {
    AllMessagesCons(e, behind);
    AllMessagesAppend(before, tail);
  }

  /** The messages of an entry stand together, and no others are about its block if no other entry is. */
  lemma SentTogether(es: seq<Entry>, before: seq<Entry>, e: Entry, behind: seq<Entry>)
    requires AllAnswered(es) && es == before + ([e] + behind)
    requires forall x :: x in before || x in behind ==> x.block.height != e.block.height
    ensures Together(AllMessages(es), e)
  {
    PartsAnswered(es, before, e, behind);
    SplitMessages(before, e, behind, [e] + behind);
    MessagesLayout(e);
    NotAmong(before, e.block.height);
    NotAmong(behind, e.block.height);
    Surrounded(AllMessages(before), Messages(e), AllMessages(behind), e);
  }

  lemma PartsAnswered(es: seq<Entry>, before: seq<Entry>, e: Entry, behind: seq<Entry>)
    requires AllAnswered(es) && es == before + ([e] + behind)
    ensures AllAnswered(before) && e.Answered() && AllAnswered(behind)
  {
    var n := |before|;
    assert es[n] == e;
    assert forall i :: 0 <= i < n ==> before[i] == es[i];
    assert forall i :: 0 <= i < |behind| ==> behind[i] == es[n + 1 + i];
  }

  /** Somewhere on the bus the messages of e stand in their layout, and no other message is about its block. */
  ghost predicate Together(bus: seq<Message>, e: Entry) {
    exists at, end :: TogetherAt(bus, e, at, end)
  }

  predicate TogetherAt(bus: seq<Message>, e: Entry, at: int, end: int) {
    && 0 <= at <= end <= |bus| && Layout(e, bus[at..end])
    && forall p :: 0 <= p < |bus| && HeightOf(bus[p]) == Some(e.block.height) ==> at <= p < end
  }

  lemma PartOf(a: seq<Message>, b: seq<Message>, c: seq<Message>, p: nat)
    requires p < |a + (b + c)|
    ensures (a + (b + c))[p] in a || |a| <= p < |a| + |b| || (a + (b + c))[p] in c
  {
  }

  lemma Surrounded(a: seq<Message>, b: seq<Message>, c: seq<Message>, e: Entry)
    requires Layout(e, b)
    requires forall m :: m in a || m in c ==> HeightOf(m) != Some(e.block.height)
    ensures Together(a + (b + c), e)
  {
    var bus, at, end := a + (b + c), |a|, |a| + |b|;
    assert bus[at..end] == b;
    forall p | 0 <= p < |bus| && HeightOf(bus[p]) == Some(e.block.height) ensures at <= p < end {
      PartOf(a, b, c, p);
    }
    assert TogetherAt(bus, e, at, end);
  }

  lemma OnceEach(s: seq<Height>, more: seq<Height>, all: seq<Height>)
    requires multiset(s + more) == multiset(all) && forall h :: multiset(all)[h] <= 1
    ensures forall i, j :: 0 <= i < j < |s| ==> s[i] != s[j]
  {
    forall i, j | 0 <= i < j < |s| ensures s[i] != s[j] {
      if s[i] == s[j] { TwiceCounted(s, more, i, j); }
    }
  }

  lemma TwiceCounted(s: seq<Height>, more: seq<Height>, i: nat, j: nat)
    requires i < j < |s| && s[i] == s[j]
    ensures multiset(s + more)[s[i]] >= 2
  {
    assert s == s[..i] + [s[i]] + s[i + 1..j] + [s[j]] + s[j + 1..];
  }

  lemma SentLine(ops: seq<Op>)
    requires WellFormed(ops) && AllCalm(ops) && Increasing(Executed(ops))
    ensures AllAnswered(Sent(ops)) && FiredBlocks(Run(ops).bus) == Heights(Sent(ops))
    ensures multiset(Heights(Sent(ops)) + Heights(Run(ops).stack)) == multiset(Executed(ops))
  {
    RunCarries(ops);
    FiredAll(Sent(ops));
    RunGood(ops);
  }

  /** Each height is sent once. */
  lemma SentOnce(ops: seq<Op>, k: nat)
    requires WellFormed(ops) && AllCalm(ops) && Increasing(Executed(ops)) && k < |Sent(ops)|
    ensures forall x :: x in Sent(ops)[..k] || x in Sent(ops)[k + 1..] ==>
              x.block.height != Sent(ops)[k].block.height
  {
    SentLine(ops);
    IncreasingOnce(Executed(ops));
    OnceEach(Heights(Sent(ops)), Heights(Run(ops).stack), Executed(ops));
    OthersDiffer(Sent(ops), k);
  }

  lemma OthersDiffer(es: seq<Entry>, k: nat)
    requires k < |es| && forall i, j :: 0 <= i < j < |es| ==> Heights(es)[i] != Heights(es)[j]
    ensures forall x :: x in es[..k] || x in es[k + 1..] ==> x.block.height != es[k].block.height
  {
    forall x | x in es[..k] || x in es[k + 1..] ensures x.block.height != es[k].block.height {
      var j :| 0 <= j < |es| && j != k && es[j] == x;
      assert Heights(es)[j] != Heights(es)[k];
    }
  }

  /**
   After any calm run every executed block is stored as it reads. Once it is fired, its messages
   stand together on the bus: block, header, events, its evidence and transactions in order, its
   validator updates if any; and no other message is about it.
   */
  lemma CalmRunsComplete(ops: seq<Op>, i: nat)
    requires WellFormed(ops) && AllCalm(ops) && Increasing(Executed(ops)) && i < |ops| && ops[i].Execute?
    ensures var st, h := Run(ops), ops[i].entry.block.height;
            && h in st.responses && st.responses[h] == AsRead(ops[i]).response
            && (h in FiredBlocks(st.bus) ==> Together(st.bus, AsRead(ops[i])))
            && (h !in FiredBlocks(st.bus) ==> forall m :: m in st.bus ==> HeightOf(m) != Some(h))
  {
    RunStored(ops, i, ops[i].entry.block.height);
    ResponseIsRead(ops, i);
    if ops[i].entry.block.height in FiredBlocks(Run(ops).bus) {
      FiredTogether(ops, i);
    } else {
      UnfiredSilent(ops, ops[i].entry.block.height);
    }
  }

  lemma FiredTogether(ops: seq<Op>, i: nat)
    requires WellFormed(ops) && AllCalm(ops) && Increasing(Executed(ops)) && i < |ops| && ops[i].Execute?
    requires ops[i].entry.block.height in FiredBlocks(Run(ops).bus)
    ensures Together(Run(ops).bus, AsRead(ops[i]))
  {
    SentLine(ops);
    var k :| 0 <= k < |Sent(ops)| && Heights(Sent(ops))[k] == ops[i].entry.block.height;
    EntryTogether(ops, k);
    FiredIsRead(ops, i, Sent(ops)[k]);
  }

  lemma EntryTogether(ops: seq<Op>, k: nat)
    requires WellFormed(ops) && AllCalm(ops) && Increasing(Executed(ops)) && k < |Sent(ops)|
    ensures Together(Run(ops).bus, Sent(ops)[k])
  {
    RunCarries(ops);
    SentOnce(ops, k);
    TogetherAmong(Sent(ops), k);
  }

  lemma TogetherAmong(es: seq<Entry>, k: nat)
    requires AllAnswered(es) && k < |es|
    requires forall x :: x in es[..k] || x in es[k + 1..] ==> x.block.height != es[k].block.height
    ensures Together(AllMessages(es), es[k])
  {
    Split(es, k);
    SentTogether(es, es[..k], es[k], es[k + 1..]);
  }

  lemma Split(es: seq<Entry>, k: nat)
    requires k < |es|
    ensures es == es[..k] + ([es[k]] + es[k + 1..])
  {
  }

  lemma UnfiredSilent(ops: seq<Op>, h: Height)
    requires WellFormed(ops) && AllCalm(ops) && Increasing(Executed(ops)) && h !in FiredBlocks(Run(ops).bus)
    ensures forall m :: m in Run(ops).bus ==> HeightOf(m) != Some(h)
  {
    SentLine(ops);
    RunCarries(ops);
    var es := Sent(ops);
    forall j | 0 <= j < |es| ensures es[j].block.height != h { assert Heights(es)[j] in Heights(es); }
    NotAmong(es, h);
  }

  lemma FiredIsRead(ops: seq<Op>, i: nat, e: Entry)
    requires WellFormed(ops) && AllCalm(ops) && Increasing(Executed(ops)) && i < |ops| && ops[i].Execute?
    requires e in Sent(ops) && e.block.height == ops[i].entry.block.height
    ensures e == AsRead(ops[i])
  {
    RunSent(ops);
    EntryIsRead(ops, i, e);
  }

  /** What was sent or waits is an executed entry. */
  lemma {:induction false} RunSent(ops: seq<Op>)
    requires WellFormed(ops) && AllCalm(ops) && Increasing(Executed(ops))
    ensures forall e :: e in Sent(ops) ==> e in Entries(ops)
  {
    if ops != [] {
      var front, op := ops[..|ops| - 1], ops[|ops| - 1];
      ExecutedFront(ops);
      RunSent(front);
      RunTraced(front);
    }
  }

  // ---------------------------------------------------------------- inputs on which promises fail

  /** A block without transactions and with one event. */
  function Sample(h: Height): Entry {
    Entry(Block(h, [], []), "", Response(["event"], []), [])
  }

  function Waiting(h: Height): Op {
    Execute(Sample(h), false, Fine)
  }

  /** Releasing everything up to height 1, with every entry meeting the same weather. */
  function FinalAtOne(w: Weather): Op {
    Final(1, _ => true, _ => w)
  }

  lemma RunTwo(a: Op, b: Op)
    requires WellFormed([a, b])
    ensures WellFormed([a]) && Run([a]) == Step(State([], map[], []), a)
    ensures Run([a, b]) == Step(Run([a]), b) && Executed([a, b]) == ExecutedBy(a) + ExecutedBy(b)
  {
    assert [a, b][..1] == [a] && [a][..0] == [];
    assert Executed([a]) == ExecutedBy(a);
  }

  lemma TogetherAnnounced(bus: seq<Message>, e: Entry)
    requires Together(bus, e)
    ensures Announcement(e) in bus
  {
    var at, end :| TogetherAt(bus, e, at, end);
    assert bus[at..end][2] == bus[at + 2];
  }

  /** One waiting block: its event is gone from the store, and its release announces none. */
  lemma EventLost()
    ensures var st := Run([Waiting(1), FinalAtOne(Fine)]);
            && NewBlockEvents(1, [], 0) in st.bus && NewBlockEvents(1, ["event"], 0) !in st.bus
            && 1 in st.responses && st.responses[1].events == []
  {
    var ops := [Waiting(1), FinalAtOne(Fine)];
    RunTwo(ops[0], ops[1]);
    FireOnce(Run([Waiting(1)]));
    CalmRunsComplete(ops, 0);
    WaitingLosesEvents(ops, 0);
    TogetherAnnounced(Run(ops).bus, AsRead(ops[0]));
  }

  /** A stack of one entry, stored, at height 1. */
  lemma LoneRelease(st: State, w: Weather)
    requires |st.stack| == 1 && st.stack[0].Answered() && st.stack[0].block.height == 1 && 1 in st.responses
    ensures var st' := Step(st, FinalAtOne(w));
            if w.Cancelled? then st' == st.(stack := [])
            else
              var (st1, ok) := ReleaseEntry(st, st.stack[0], w);
              st' == if ok then st1.(stack := []) else st1
  {
    var env: nat -> Weather := _ => w;
    assert st.stack[..0] == [] && st.stack[1..] == [];
    assert LastReleasable(st.stack, 1, _ => true) == 0;
    if !w.Cancelled? {
      var (st1, ok) := ReleaseEntry(st, st.stack[0], w);
      if ok { assert ReleaseFrom(st1, 1, 0, env) == (st1.(stack := []), true); }
    }
  }

  /** A publishable block overtakes a waiting one. */
  lemma OrderLost()
    ensures var ops := [Waiting(1), Execute(Sample(2), true, Fine)];
            && Executed(ops) == [1, 2]
            && FiredBlocks(Run(ops).bus) + Heights(Run(ops).stack) == [2, 1]
  {
    var ops := [Waiting(1), Execute(Sample(2), true, Fine)];
    RunTwo(ops[0], ops[1]);
    var st := Run([Waiting(1)]);
    assert st.stack[0].block.height == 1 && Heights(st.stack) == [1];
    PublishedLine(st, Sample(2));
  }

  /** A context cancelled at a waiting block drops it: executed, never fired, no longer waiting. */
  lemma BlockDropped()
    ensures var ops := [Waiting(1), FinalAtOne(Cancelled)];
            Executed(ops) == [1] && FiredBlocks(Run(ops).bus) == [] && Run(ops).stack == []
  {
    var ops := [Waiting(1), FinalAtOne(Cancelled)];
    RunTwo(ops[0], ops[1]);
    LoneRelease(Run([Waiting(1)]), Cancelled);
  }

  /** A bus that fails after a block's first message has it fired once already, and once more by the next call. */
  lemma BlockFiredTwice()
    ensures var ops := [Waiting(1), FinalAtOne(BusFails(1)), FinalAtOne(Fine)];
            Executed(ops) == [1] && FiredBlocks(Run(ops).bus) == [1, 1] && Run(ops).stack == []
  {
    var a, b, c := Waiting(1), FinalAtOne(BusFails(1)), FinalAtOne(Fine);
    assert [a, b, c][..2] == [a, b];
    RunTwo(a, b);
    FailThenFire(Run([a]));
  }

  /** The failing call takes the first message and keeps the entry. */
  lemma FailOnce(st: State)
    requires |st.stack| == 1 && st.stack[0].Answered() && st.stack[0].block.height == 1 && 1 in st.responses
    ensures var st1 := Step(st, FinalAtOne(BusFails(1)));
            && st1.stack == st.stack && 1 in st1.responses
            && st1.bus == st.bus + Messages(st.stack[0])[..1]
  {
    LoneRelease(st, BusFails(1));
  }

  lemma FireOnce(st: State)
    requires |st.stack| == 1 && st.stack[0].Answered() && st.stack[0].block.height == 1 && 1 in st.responses
    ensures var st1 := Step(st, FinalAtOne(Fine));
            st1.stack == [] && FiredBlocks(st1.bus) == FiredBlocks(st.bus) + [1]
  {
    LoneRelease(st, Fine);
    FiredAppend(st.bus, Messages(st.stack[0]));
    FiredMessages(st.stack[0]);
  }

  lemma FailThenFire(st: State)
    requires |st.stack| == 1 && st.stack[0].Answered() && st.stack[0].block.height == 1 && 1 in st.responses
    requires st.bus == []
    ensures var st1 := Step(st, FinalAtOne(BusFails(1)));
            && AllAnswered(st1.stack)
            && var st2 := Step(st1, FinalAtOne(Fine));
            FiredBlocks(st2.bus) == [1, 1] && st2.stack == []
  {
    FailOnce(st);
    var part := Messages(st.stack[0])[..1];
    FiredPart(st.stack[0], 1);
    assert [] + part == part;
    FireOnce(Step(st, FinalAtOne(BusFails(1))));
  }
}
