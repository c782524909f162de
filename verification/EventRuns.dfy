/** What calls to SetFinal release, and what whole runs of executed blocks conserve. */
module EventRuns {
  import opened EventQueue

  function Heights(es: seq<Entry>): (r: seq<Height>)
    ensures |r| == |es|
  {
    seq(|es|, i requires 0 <= i < |es| => es[i].block.height)
  }

  predicate Increasing(s: seq<Height>) {
    forall i, j :: 0 <= i < j < |s| ==> s[i] < s[j]
  }

  /** The heights whose NewBlock message is on the bus, in bus order. */
  function FiredBlocks(bus: seq<Message>): seq<Height> {
    if bus == [] then []
    else
      var m := bus[|bus| - 1];
      FiredBlocks(bus[..|bus| - 1]) + (if m.NewBlock? then [m.block.height] else [])
  }

  lemma {:induction false} FiredAppend(a: seq<Message>, b: seq<Message>)
    ensures FiredBlocks(a + b) == FiredBlocks(a) + FiredBlocks(b)
  {
    if b == [] {
      assert a + b == a;
    } else {
      assert (a + b)[..|a + b| - 1] == a + b[..|b| - 1];
      FiredAppend(a, b[..|b| - 1]);
    }
  }

  lemma {:induction false} NoBlockNoneFired(ms: seq<Message>)
    requires forall i :: 0 <= i < |ms| ==> !ms[i].NewBlock?
    ensures FiredBlocks(ms) == []
  {
    if ms != [] { NoBlockNoneFired(ms[..|ms| - 1]); }
  }

  /** Firing one entry puts its block on the bus once. */
  lemma FiredMessages(e: Entry)
    requires e.Answered()
    ensures FiredBlocks(Messages(e)) == [e.block.height]
  {
    var head, rest := Messages(e)[..1], Messages(e)[1..];
    assert Messages(e) == head + rest;
    FiredAppend(head, rest);
    NoBlockNoneFired(rest);
    assert head[..0] == [];
    assert FiredBlocks(head) == FiredBlocks([]) + [e.block.height];
  }

  function AllMessages(es: seq<Entry>): seq<Message>
    requires AllAnswered(es)
  {
    if es == [] then [] else Messages(es[0]) + AllMessages(es[1..])
  }

  lemma {:induction false} FiredAll(es: seq<Entry>)
    requires AllAnswered(es)
    ensures FiredBlocks(AllMessages(es)) == Heights(es)
  {
    if es != [] {
      FiredAll(es[1..]);
      FiredAppend(Messages(es[0]), AllMessages(es[1..]));
      FiredMessages(es[0]);
      assert Heights(es) == [es[0].block.height] + Heights(es[1..]);
    }
  }

  // ---------------------------------------------------------------- one call of SetFinal

  /** Every stacked block has a stored response. */
  predicate Stored(st: State) {
    forall i :: 0 <= i < |st.stack| ==> st.stack[i].block.height in st.responses
  }

  /** A stacked block lost its events, in the queue and in the store. */
  predicate Cleared(st: State) {
    forall i :: 0 <= i < |st.stack| ==>
      && st.stack[i].response.events == []
      && st.stack[i].block.height in st.responses
      && st.responses[st.stack[i].block.height].events == []
  }

  /** An entry goes out whole, and the release loop goes on behind it. */
  predicate Passes(st: State, e: Entry, w: Weather)
    requires e.Answered()
  {
    !w.Cancelled? && !w.GetFails? && !w.SaveFails? && e.block.height in st.responses && BusOk(w, Messages(e))
  }

  /** Every entry i, ..., k - 1 passes. */
  ghost predicate PassBetween(st: State, env: nat -> Weather, i: nat, k: nat)
    requires AllAnswered(st.stack) && k <= |st.stack|
  {
    forall j: nat :: i <= j < k ==> Passes(st, st.stack[j], env(j))
  }

  lemma ReleasePassing(st: State, e: Entry, w: Weather)
    requires e.Answered() && Passes(st, e, w)
    ensures var (st', ok) := ReleaseEntry(st, e, w);
            && ok && st'.stack == st.stack && st'.responses.Keys == st.responses.Keys
            && st'.bus == st.bus + Messages(e)
            && (st.responses[e.block.height].events == e.response.events ==> st'.responses == st.responses)
  {
  }

  /** What a bus that fails at entry e still took of it. */
  function Part(st: State, e: Entry, w: Weather): seq<Message>
    requires e.Answered()
  {
    if w.BusFails? && e.block.height in st.responses then Accepted(w, Messages(e)) else []
  }

  /** How the loop ends when entries i, ..., k - 1 passed and it then met `w` at k. */
  predicate Ends(st: State, i: nat, k: nat, last: nat, w: Weather, st': State, ok: bool)
    requires AllAnswered(st.stack) && i <= k <= last + 1 <= |st.stack|
  {
    var sent := st.bus + AllMessages(st.stack[i..k]);
    && (k == last + 1 ==> ok && st'.stack == st.stack[k..] && st'.bus == sent)
    // a cancelled context also drops the entry it was met at
    && (k <= last && w.Cancelled? ==> ok && st'.stack == st.stack[k + 1..] && st'.bus == sent)
    // an error leaves what was fired on the stack
    && (k <= last && !w.Cancelled? && !Passes(st, st.stack[k], w) ==>
          !ok && st'.stack == st.stack && st'.bus == sent + Part(st, st.stack[k], w))
    // entries without events give the store nothing new
    && ((k == last + 1 || w.Cancelled?) && Cleared(st) ==> st'.responses == st.responses)
  }

  lemma StopsHere(st: State, k: nat, last: nat, env: nat -> Weather)
    requires AllAnswered(st.stack) && k <= last + 1 <= |st.stack|
    ensures var r := ReleaseFrom(st, k, last, env); Ends(st, k, k, last, env(k), r.0, r.1)
  {
    assert st.stack[k..k] == [] && st.bus + [] == st.bus;
  }

  /** One more entry passed before the loop ended. */
  lemma EndsOneMore(st: State, st1: State, i: nat, i': nat, k: nat, last: nat, w: Weather, r: (State, bool))
    requires AllAnswered(st.stack) && i' == i + 1 <= k <= last + 1 <= |st.stack|
    requires st1.stack == st.stack && st1.bus == st.bus + Messages(st.stack[i])
    requires st1.responses.Keys == st.responses.Keys
    requires Cleared(st) ==> st1.responses == st.responses
    requires Ends(st1, i', k, last, w, r.0, r.1)
    ensures Ends(st, i, k, last, w, r.0, r.1)
  {
    assert st.stack[i..k] == [st.stack[i]] + st.stack[i'..k];
    SentOneMore(st.bus, st.stack[i], st.stack[i'..k]);
    if k <= last {
      var h := st.stack[k].block.height;
      assert h in st1.responses.Keys <==> h in st.responses.Keys;
    }
  }

  /** The loop goes on from the state behind an entry that passed. */
  lemma ReleaseOne(st: State, i: nat, i': nat, last: nat, env: nat -> Weather)
    requires AllAnswered(st.stack) && i <= last < |st.stack| && i' == i + 1 && Passes(st, st.stack[i], env(i))
    ensures var st1 := ReleaseEntry(st, st.stack[i], env(i)).0;
            && ReleaseFrom(st, i, last, env) == ReleaseFrom(st1, i', last, env)
            && st1.stack == st.stack && st1.bus == st.bus + Messages(st.stack[i])
            && st1.responses.Keys == st.responses.Keys
            && (Cleared(st) ==> st1.responses == st.responses)
  {
    ReleasePassing(st, st.stack[i], env(i));
  }

  lemma StillPass(st: State, st1: State, env: nat -> Weather, i: nat, k: nat)
    requires AllAnswered(st.stack) && k <= |st.stack| && PassBetween(st, env, i, k)
    requires st1.stack == st.stack && st1.responses.Keys == st.responses.Keys
    ensures PassBetween(st1, env, i, k)
  {
    forall j: nat | i <= j < k ensures Passes(st1, st1.stack[j], env(j)) {
      assert Passes(st, st.stack[j], env(j));
      assert st.stack[j].block.height in st.responses.Keys;
    }
  }

  /** The ways out of the release loop, in any weather. */
  lemma {:induction false} ReleaseEnds(st: State, i: nat, k: nat, last: nat, env: nat -> Weather)
    requires AllAnswered(st.stack) && i <= k <= last + 1 <= |st.stack|
    requires PassBetween(st, env, i, k)
    ensures var r := ReleaseFrom(st, i, last, env); Ends(st, i, k, last, env(k), r.0, r.1)
    decreases k - i
  {
    if i == k {
      StopsHere(st, k, last, env);
    } else {
      var i' := i + 1;
      assert Passes(st, st.stack[i], env(i));
      ReleaseOne(st, i, i', last, env);
      var st1 := ReleaseEntry(st, st.stack[i], env(i)).0;
      StillPass(st, st1, env, i', k);
      ReleaseEnds(st1, i', k, last, env);
      EndsOneMore(st, st1, i, i', k, last, env(k), ReleaseFrom(st1, i', last, env));
    }
  }

  /** The first entry from i on at which the loop ends; last + 1 when all pass. */
  function Stop(st: State, i: nat, last: nat, env: nat -> Weather): (k: nat)
    requires AllAnswered(st.stack) && i <= last + 1 <= |st.stack|
    ensures i <= k <= last + 1
    ensures k <= last ==> !Passes(st, st.stack[k], env(k))
    decreases last + 1 - i
  {
    if i > last || !Passes(st, st.stack[i], env(i)) then i else Stop(st, i + 1, last, env)
  }

  lemma {:induction false} PassUntilStop(st: State, i: nat, last: nat, env: nat -> Weather)
    requires AllAnswered(st.stack) && i <= last + 1 <= |st.stack|
    ensures PassBetween(st, env, i, Stop(st, i, last, env))
    decreases last + 1 - i
  {
    if i <= last && Passes(st, st.stack[i], env(i)) {
      PassUntilStop(st, i + 1, last, env);
    }
  }

  lemma SentOneMore(bus: seq<Message>, e: Entry, es: seq<Entry>)
    requires e.Answered() && AllAnswered(es)
    ensures AllAnswered([e] + es)
    ensures bus + AllMessages([e] + es) == bus + Messages(e) + AllMessages(es)
  {
    assert ([e] + es)[1..] == es;
  }

  lemma {:induction false} LastIsLast(stack: seq<Entry>, persisted: Height, filter: Height -> bool)
    ensures var p := LastReleasable(stack, persisted, filter);
            && (p >= 0 ==> stack[p].block.height <= persisted && filter(stack[p].block.height))
            && forall i :: p < i < |stack| ==> !(stack[i].block.height <= persisted && filter(stack[i].block.height))
  {
    if stack != [] { LastIsLast(stack[..|stack| - 1], persisted, filter); }
  }

  /** How many entries an undisturbed call releases. */
  function Released(st: State, persisted: Height, filter: Height -> bool): (n: nat)
    ensures n <= |st.stack|
  {
    LastReleasable(st.stack, persisted, filter) + 1
  }

  lemma FinalState(st: State, persisted: Height, filter: Height -> bool, env: nat -> Weather)
    requires AllAnswered(st.stack) && Stored(st)
    requires forall i: nat :: env(i) == Fine
    ensures var n, (st', ok) := Released(st, persisted, filter), SetFinalSpec(st, persisted, filter, env);
            && ok && st'.stack == st.stack[n..] && st'.bus == st.bus + AllMessages(st.stack[..n])
            && (Cleared(st) ==> st'.responses == st.responses)
  {
    var n := Released(st, persisted, filter);
    if n == 0 {
      assert st.stack[..0] == [] && st.bus + [] == st.bus;
    } else {
      assert PassBetween(st, env, 0, n);
      ReleaseEnds(st, 0, n, n - 1, env);
      assert st.stack[0..n] == st.stack[..n];
    }
  }

  lemma FiredPrefix(bus: seq<Message>, stack: seq<Entry>, n: nat)
    requires AllAnswered(stack) && n <= |stack|
    ensures FiredBlocks(bus + AllMessages(stack[..n])) == FiredBlocks(bus) + Heights(stack)[..n]
  {
    FiredAppend(bus, AllMessages(stack[..n]));
    FiredAll(stack[..n]);
    assert Heights(stack[..n]) == Heights(stack)[..n];
  }

  lemma ReleasedBelow(st: State, persisted: Height, filter: Height -> bool)
    requires Increasing(Heights(st.stack))
    ensures forall i :: 0 <= i < Released(st, persisted, filter) ==> st.stack[i].block.height <= persisted
    ensures forall i :: Released(st, persisted, filter) <= i < |st.stack| ==>
              !(st.stack[i].block.height <= persisted && filter(st.stack[i].block.height))
  {
    var n := Released(st, persisted, filter);
    LastIsLast(st.stack, persisted, filter);
    forall i | 0 <= i < n ensures st.stack[i].block.height <= persisted {
      assert Heights(st.stack)[i] <= Heights(st.stack)[n - 1];
    }
  }

  /**
   An undisturbed SetFinal on a stack in height order fires a prefix of it, in order, all of
   it at or below the persisted height, and leaves nothing that could still be released.
   */
  lemma SetFinalReleases(st: State, persisted: Height, filter: Height -> bool, env: nat -> Weather)
    requires AllAnswered(st.stack) && Stored(st) && Increasing(Heights(st.stack))
    requires forall i: nat :: env(i) == Fine
    ensures var (st', ok) := SetFinalSpec(st, persisted, filter, env);
            var n := Released(st, persisted, filter);
            && ok && st'.stack == st.stack[n..] && st'.bus == st.bus + AllMessages(st.stack[..n])
            && FiredBlocks(st'.bus) == FiredBlocks(st.bus) + Heights(st.stack)[..n]
            && (forall i :: 0 <= i < n ==> st.stack[i].block.height <= persisted)
            && (forall i :: n <= i < |st.stack| ==>
                  !(st.stack[i].block.height <= persisted && filter(st.stack[i].block.height)))
  {
    var n := Released(st, persisted, filter);
    FinalState(st, persisted, filter, env);
    FiredPrefix(st.bus, st.stack, n);
    ReleasedBelow(st, persisted, filter);
  }

  // ---------------------------------------------------------------- whole runs

  datatype Op =
    | Execute(entry: Entry, publishable: bool, weather: Weather)
    | Final(persisted: Height, filter: Height -> bool, env: nat -> Weather)

  function Step(st: State, op: Op): State
    requires AllAnswered(st.stack) && (op.Execute? ==> op.entry.Answered())
  {
    match op
    case Execute(e, publishable, w) => ExecuteSpec(st, e, publishable, w).0
    case Final(persisted, filter, env) => SetFinalSpec(st, persisted, filter, env).0
  }

  /** Nothing disturbs the call. */
  ghost predicate Calm(op: Op) {
    match op
    case Execute(_, _, w) => w == Fine
    case Final(_, _, env) => forall j: nat :: env(j) == Fine
  }

  ghost predicate AllCalm(ops: seq<Op>) {
    forall i :: 0 <= i < |ops| ==> Calm(ops[i])
  }

  predicate WellFormed(ops: seq<Op>) {
    forall i :: 0 <= i < |ops| && ops[i].Execute? ==> ops[i].entry.Answered()
  }

  function Executed(ops: seq<Op>): seq<Height> {
    if ops == [] then []
    else
      var op := ops[|ops| - 1];
      Executed(ops[..|ops| - 1]) + (if op.Execute? then [op.entry.block.height] else [])
  }

  function Run(ops: seq<Op>): (st: State)
    requires WellFormed(ops)
    ensures AllAnswered(st.stack)
  {
    if ops == [] then State([], map[], [])
    else
      var st := Run(ops[..|ops| - 1]);
      StepAnswered(st, ops[|ops| - 1]);
      Step(st, ops[|ops| - 1])
  }

  lemma {:induction false} ReleaseAnswered(st: State, i: nat, last: nat, env: nat -> Weather)
    requires last < |st.stack| && i <= last + 1 && AllAnswered(st.stack)
    ensures AllAnswered(ReleaseFrom(st, i, last, env).0.stack)
    decreases last + 1 - i
  {
    if i <= last && !env(i).Cancelled? {
      var (st1, ok) := ReleaseEntry(st, st.stack[i], env(i));
      if ok { ReleaseAnswered(st1, i + 1, last, env); }
    }
  }

  lemma StepAnswered(st: State, op: Op)
    requires AllAnswered(st.stack) && (op.Execute? ==> op.entry.Answered())
    ensures AllAnswered(Step(st, op).stack)
  {
    if op.Final? {
      var last := LastReleasable(st.stack, op.persisted, op.filter);
      if last != -1 { ReleaseAnswered(st, 0, last, op.env); }
    }
  }

  /** Fired first, then stacked. */
  function Line(st: State): seq<Height> {
    FiredBlocks(st.bus) + Heights(st.stack)
  }

  /** A publishable block is fired while others wait. */
  predicate Overtaken(ops: seq<Op>)
    requires WellFormed(ops)
  {
    ops != [] &&
    (Overtaken(ops[..|ops| - 1]) ||
     (ops[|ops| - 1].Execute? && ops[|ops| - 1].publishable && Run(ops[..|ops| - 1]).stack != []))
  }

  /** What holds after every run. */
  predicate Good(st: State, executed: seq<Height>, overtaken: bool) {
    && multiset(Line(st)) == multiset(executed)
    && Increasing(Heights(st.stack))
    && Cleared(st)
    && (if overtaken then !Increasing(Line(st)) else Line(st) == executed)
  }

  lemma FinalGood(st: State, executed: seq<Height>, overtaken: bool, persisted: Height, filter: Height -> bool,
                  env: nat -> Weather)
    requires AllAnswered(st.stack) && Good(st, executed, overtaken) && forall j: nat :: env(j) == Fine
    ensures var st' := SetFinalSpec(st, persisted, filter, env).0;
            Good(st', executed, overtaken) && st'.responses == st.responses
  {
    var n := Released(st, persisted, filter);
    FinalState(st, persisted, filter, env);
    FiredPrefix(st.bus, st.stack, n);
    var st' := SetFinalSpec(st, persisted, filter, env).0;
    SplitLine(st, st', n);
  }

  /** Releasing moves the border between fired and stacked, not the line. */
  lemma SplitLine(st: State, st': State, n: nat)
    requires n <= |st.stack| && st'.stack == st.stack[n..] && st'.responses == st.responses
    requires FiredBlocks(st'.bus) == FiredBlocks(st.bus) + Heights(st.stack)[..n]
    requires Increasing(Heights(st.stack)) && Cleared(st)
    ensures Line(st') == Line(st) && Increasing(Heights(st'.stack)) && Cleared(st')
  {
    var fired, waiting := FiredBlocks(st.bus), Heights(st.stack);
    assert Heights(st'.stack) == waiting[n..];
    assert fired + waiting[..n] + waiting[n..] == fired + waiting;
    forall i | 0 <= i < |st'.stack| ensures st'.stack[i] == st.stack[n + i] { }
  }

  lemma StackGood(st: State, executed: seq<Height>, overtaken: bool, e: Entry)
    requires e.Answered() && Good(st, executed, overtaken)
    requires Increasing(executed + [e.block.height])
    ensures Good(ExecuteSpec(st, e, false, Fine).0, executed + [e.block.height], overtaken)
  {
    var h := e.block.height;
    var st' := ExecuteSpec(st, e, false, Fine).0;
    assert Heights(st'.stack) == Heights(st.stack) + [h];
    assert Line(st') == Line(st) + [h];
    BelowNext(st, executed, h);
    InversionStays(Line(st), h);
    StackCleared(st, e);
  }

  lemma InversionStays(s: seq<Height>, h: Height)
    ensures !Increasing(s) ==> !Increasing(s + [h])
  {
    if !Increasing(s) {
      var i, j :| 0 <= i < j < |s| && s[i] >= s[j];
      assert (s + [h])[i] >= (s + [h])[j];
    }
  }

  lemma StackCleared(st: State, e: Entry)
    requires e.Answered() && Cleared(st)
    requires forall i :: 0 <= i < |st.stack| ==> st.stack[i].block.height < e.block.height
    ensures Cleared(ExecuteSpec(st, e, false, Fine).0)
  {
  }

  /** Every fired or stacked height is below the next executed one. */
  lemma BelowNext(st: State, executed: seq<Height>, h: Height)
    requires multiset(Line(st)) == multiset(executed) && Increasing(executed + [h])
    ensures forall i :: 0 <= i < |Line(st)| ==> Line(st)[i] < h
    ensures forall i :: 0 <= i < |st.stack| ==> st.stack[i].block.height < h && Heights(st.stack)[i] < h
  {
    forall i | 0 <= i < |Line(st)| ensures Line(st)[i] < h {
      assert Line(st)[i] in multiset(executed);
      var k :| 0 <= k < |executed| && executed[k] == Line(st)[i];
      assert (executed + [h])[k] < (executed + [h])[|executed|];
    }
    forall i | 0 <= i < |st.stack| ensures st.stack[i].block.height < h && Heights(st.stack)[i] < h {
      assert Line(st)[|FiredBlocks(st.bus)| + i] == Heights(st.stack)[i];
    }
  }

  /** A height put between fired and stacked ones: an inversion stays, and a new one appears if anybody waits. */
  lemma Insert(fired: seq<Height>, h: Height, waiting: seq<Height>)
    ensures !Increasing(fired + waiting) ==> !Increasing(fired + [h] + waiting)
    ensures waiting != [] && waiting[0] < h ==> !Increasing(fired + [h] + waiting)
    ensures multiset(fired + [h] + waiting) == multiset(fired + waiting) + multiset{h}
  {
    var before, after := fired + waiting, fired + [h] + waiting;
    if !Increasing(before) {
      var i, j :| 0 <= i < j < |before| && before[i] >= before[j];
      var i', j' := if i < |fired| then i else i + 1, if j < |fired| then j else j + 1;
      assert after[i'] == before[i] && after[j'] == before[j];
    }
    if waiting != [] && waiting[0] < h {
      assert after[|fired|] == h && after[|fired| + 1] == waiting[0];
    }
  }

  lemma PublishGood(st: State, executed: seq<Height>, overtaken: bool, e: Entry)
    requires e.Answered() && Good(st, executed, overtaken)
    requires Increasing(executed + [e.block.height])
    ensures Good(ExecuteSpec(st, e, true, Fine).0, executed + [e.block.height], overtaken || st.stack != [])
  {
    var h := e.block.height;
    PublishedLine(st, e);
    BelowNext(st, executed, h);
    Insert(FiredBlocks(st.bus), h, Heights(st.stack));
    var st' := ExecuteSpec(st, e, true, Fine).0;
    forall i | 0 <= i < |st'.stack| ensures st'.stack[i].block.height != h {
      assert st.stack[i].block.height < h;
    }
    assert Cleared(st');
  }

  lemma PublishedLine(st: State, e: Entry)
    requires e.Answered()
    ensures var st' := ExecuteSpec(st, e, true, Fine).0;
            && st'.stack == st.stack && st'.responses == st.responses[e.block.height := e.response]
            && Line(st') == FiredBlocks(st.bus) + [e.block.height] + Heights(st.stack)
  {
    FiredAppend(st.bus, Messages(e));
    FiredMessages(e);
  }

  lemma {:induction false} RunGood(ops: seq<Op>)
    requires WellFormed(ops) && AllCalm(ops) && Increasing(Executed(ops))
    ensures Good(Run(ops), Executed(ops), Overtaken(ops))
  {
    if ops == [] {
      assert Line(Run(ops)) == [];
    } else {
      var front, op := ops[..|ops| - 1], ops[|ops| - 1];
      assert Executed(ops)[..|Executed(front)|] == Executed(front);
      forall i, j | 0 <= i < j < |Executed(front)| ensures Executed(front)[i] < Executed(front)[j] {
        assert Executed(ops)[i] < Executed(ops)[j];
      }
      RunGood(front);
      match op
      case Execute(e, publishable, _) =>
        if publishable {
          PublishGood(Run(front), Executed(front), Overtaken(front), e);
        } else {
          StackGood(Run(front), Executed(front), Overtaken(front), e);
        }
      case Final(persisted, filter, env) =>
        FinalGood(Run(front), Executed(front), Overtaken(front), persisted, filter, env);
    }
  }

  /**
   Over any calm run at increasing heights, fired plus stacked is exactly executed,
   each block once, and the stack stays in height order.
   */
  lemma EventsConserved(ops: seq<Op>)
    requires WellFormed(ops) && AllCalm(ops) && Increasing(Executed(ops))
    ensures multiset(FiredBlocks(Run(ops).bus)) + multiset(Heights(Run(ops).stack)) == multiset(Executed(ops))
    ensures Increasing(Heights(Run(ops).stack))
    ensures forall h :: multiset(Executed(ops))[h] <= 1
  {
    RunGood(ops);
    IncreasingOnce(Executed(ops));
  }

  lemma {:induction false} IncreasingOnce(s: seq<Height>)
    requires Increasing(s)
    ensures forall h :: multiset(s)[h] <= 1
  {
    if s != [] {
      var front, last := s[..|s| - 1], s[|s| - 1];
      IncreasingOnce(front);
      assert s == front + [last];
      assert last !in multiset(front);
    }
  }

  /** The blocks come out in the order they were executed exactly when none was fired past a waiting one. */
  lemma OrderKept(ops: seq<Op>)
    requires WellFormed(ops) && AllCalm(ops) && Increasing(Executed(ops))
    ensures FiredBlocks(Run(ops).bus) + Heights(Run(ops).stack) == Executed(ops) <==> !Overtaken(ops)
  {
    RunGood(ops);
  }

  // ---------------------------------------------------------------- the ledger of any run

  /** Where the release loop of a SetFinal call ends, and the last position it was to go to. */
  function LoopEnd(st: State, op: Op): (r: (nat, int))
    requires AllAnswered(st.stack) && op.Final?
    ensures r.0 <= r.1 + 1 <= |st.stack|
  {
    var last := LastReleasable(st.stack, op.persisted, op.filter);
    if last == -1 then (0, last) else (Stop(st, 0, last, op.env), last)
  }

  function ExecutedBy(op: Op): seq<Height> {
    if op.Execute? then [op.entry.block.height] else []
  }

  /** The heights a call loses: never fired, and not waiting either. */
  function DroppedBy(st: State, op: Op): seq<Height>
    requires AllAnswered(st.stack)
  {
    match op
    case Execute(e, publishable, w) =>
      if publishable && (w.SaveFails? || (w.BusFails? && w.after == 0)) then [e.block.height] else []
    case Final(_, _, env) =>
      var (k, last) := LoopEnd(st, op);
      if k <= last && env(k).Cancelled? then [st.stack[k].block.height] else []
  }

  /** The heights fired before entry k fails, and its own one when the bus took its first message. */
  function FiredAgain(st: State, k: nat, w: Weather): seq<Height>
    requires k < |st.stack|
  {
    var h := st.stack[k].block.height;
    Heights(st.stack)[..k] + (if w.BusFails? && w.after > 0 && h in st.responses then [h] else [])
  }

  /** The heights a call fires although they go on waiting, to be fired again. */
  function RepeatedBy(st: State, op: Op): seq<Height>
    requires AllAnswered(st.stack)
  {
    if op.Execute? then []
    else
      var (k, last) := LoopEnd(st, op);
      if k <= last && !op.env(k).Cancelled? then FiredAgain(st, k, op.env(k)) else []
  }

  function Dropped(ops: seq<Op>): seq<Height>
    requires WellFormed(ops)
  {
    if ops == [] then []
    else Dropped(ops[..|ops| - 1]) + DroppedBy(Run(ops[..|ops| - 1]), ops[|ops| - 1])
  }

  function Repeated(ops: seq<Op>): seq<Height>
    requires WellFormed(ops)
  {
    if ops == [] then []
    else Repeated(ops[..|ops| - 1]) + RepeatedBy(Run(ops[..|ops| - 1]), ops[|ops| - 1])
  }

  lemma FirstOnly(e: Entry)
    requires e.Answered()
    ensures |Messages(e)| >= 3 && Messages(e)[0].NewBlock?
    ensures forall i :: 1 <= i < |Messages(e)| ==> !Messages(e)[i].NewBlock?
  {
  }

  /** Any first part of an entry's messages fires its block, unless it is empty. */
  lemma FiredPart(e: Entry, n: nat)
    requires e.Answered() && n <= |Messages(e)|
    ensures FiredBlocks(Messages(e)[..n]) == if n == 0 then [] else [e.block.height]
  {
    var ms := Messages(e);
    FiredMessages(e);
    if n > 0 {
      var head, rest := ms[..n], ms[n..];
      assert ms == head + rest;
      FiredAppend(head, rest);
      FirstOnly(e);
      NoBlockNoneFired(rest);
    }
  }

  /** How often a height occurs. */
  function Count(s: seq<Height>, h: Height): nat {
    multiset(s)[h]
  }

  /** What a call fires and leaves waiting, against what it executes, loses and repeats. */
  predicate Balanced(st: State, st': State, executed: seq<Height>, dropped: seq<Height>, repeated: seq<Height>) {
    forall h: Height ::
      Count(Line(st'), h) + Count(dropped, h) == Count(Line(st), h) + Count(executed, h) + Count(repeated, h)
  }

  lemma LineInsert(fired: seq<Height>, more: seq<Height>, waiting: seq<Height>)
    ensures forall h :: Count(fired + more + waiting, h) == Count(fired + waiting, h) + Count(more, h)
  {
  }

  /** A call that puts `more` between fired and waiting, and executes what it fires or loses. */
  lemma InsertBalanced(st: State, st': State, more: seq<Height>,
                       executed: seq<Height>, dropped: seq<Height>, repeated: seq<Height>)
    requires Line(st') == FiredBlocks(st.bus) + more + Heights(st.stack)
    requires forall h :: Count(more, h) + Count(dropped, h) == Count(executed, h) + Count(repeated, h)
    ensures Balanced(st, st', executed, dropped, repeated)
  {
    LineInsert(FiredBlocks(st.bus), more, Heights(st.stack));
  }

  lemma PublishLedger(st: State, e: Entry, w: Weather)
    requires AllAnswered(st.stack) && e.Answered()
    ensures var op := Execute(e, true, w); Balanced(st, Step(st, op), ExecutedBy(op), DroppedBy(st, op), [])
  {
    var op := Execute(e, true, w);
    var sent := if w.SaveFails? then [] else Accepted(w, Messages(e));
    assert st.bus + [] == st.bus;
    FiredAppend(st.bus, sent);
    FiredPart(e, |sent|);
    assert sent == Messages(e)[..|sent|];
    var more := if |sent| == 0 then [] else [e.block.height];
    InsertBalanced(st, Step(st, op), more, ExecutedBy(op), DroppedBy(st, op), []);
  }

  lemma StackLedger(st: State, e: Entry, w: Weather)
    requires AllAnswered(st.stack) && e.Answered()
    ensures var op := Execute(e, false, w); Balanced(st, Step(st, op), ExecutedBy(op), [], [])
  {
    var st' := Step(st, Execute(e, false, w));
    assert Heights(st'.stack) == Heights(st.stack) + [e.block.height];
    assert Line(st') == Line(st) + [e.block.height];
    CountAppend(Line(st), [e.block.height]);
  }

  lemma FinalEnds(st: State, op: Op)
    requires AllAnswered(st.stack) && op.Final? && LoopEnd(st, op).1 >= 0
    ensures var (k, last) := LoopEnd(st, op);
            var r := SetFinalSpec(st, op.persisted, op.filter, op.env);
            Ends(st, 0, k, last, op.env(k), r.0, r.1)
  {
    var (k, last) := LoopEnd(st, op);
    PassUntilStop(st, 0, last, op.env);
    ReleaseEnds(st, 0, k, last, op.env);
  }

  lemma FinalLedger(st: State, op: Op)
    requires AllAnswered(st.stack) && op.Final?
    ensures Balanced(st, Step(st, op), [], DroppedBy(st, op), RepeatedBy(st, op))
  {
    var (k, last) := LoopEnd(st, op);
    if last >= 0 {
      FinalEnds(st, op);
      assert st.stack[0..k] == st.stack[..k];
      var st' := Step(st, op);
      if k == last + 1 {
        ReleasedLedger(st, st', k);
      } else if op.env(k).Cancelled? {
        CancelledLedger(st, st', k);
      } else {
        FailedLedger(st, st', k, op.env(k));
      }
    }
  }

  lemma ReleasedLedger(st: State, st': State, k: nat)
    requires AllAnswered(st.stack) && k <= |st.stack|
    requires st'.bus == st.bus + AllMessages(st.stack[..k]) && st'.stack == st.stack[k..]
    ensures Balanced(st, st', [], [], [])
  {
    FiredPrefix(st.bus, st.stack, k);
    HeightsFrom(st.stack, k);
    CutLine(FiredBlocks(st.bus), Heights(st.stack), k);
  }

  lemma HeightsFrom(stack: seq<Entry>, k: nat)
    requires k <= |stack|
    ensures Heights(stack[k..]) == Heights(stack)[k..]
  {
  }

  lemma CutLine(fired: seq<Height>, waiting: seq<Height>, k: nat)
    requires k <= |waiting|
    ensures fired + waiting[..k] + waiting[k..] == fired + waiting
  {
  }

  lemma CancelledLedger(st: State, st': State, k: nat)
    requires AllAnswered(st.stack) && k < |st.stack|
    requires st'.bus == st.bus + AllMessages(st.stack[..k]) && st'.stack == st.stack[k + 1..]
    ensures Balanced(st, st', [], [st.stack[k].block.height], [])
  {
    var fired, hs := FiredBlocks(st.bus), Heights(st.stack);
    FiredPrefix(st.bus, st.stack, k);
    HeightsFrom(st.stack, k + 1);
    DropOne(fired, hs, k);
  }

  lemma DropOne(fired: seq<Height>, waiting: seq<Height>, k: nat)
    requires k < |waiting|
    ensures forall h :: Count(fired + waiting[..k] + waiting[k + 1..], h) + Count([waiting[k]], h)
                     == Count(fired + waiting, h)
  {
    LineInsert(fired + waiting[..k], [waiting[k]], waiting[k + 1..]);
    assert fired + waiting[..k] + [waiting[k]] + waiting[k + 1..] == fired + waiting;
  }

  lemma FailedLedger(st: State, st': State, k: nat, w: Weather)
    requires AllAnswered(st.stack) && k < |st.stack|
    requires st'.bus == st.bus + AllMessages(st.stack[..k]) + Part(st, st.stack[k], w) && st'.stack == st.stack
    requires !w.Cancelled? && !Passes(st, st.stack[k], w)
    ensures Balanced(st, st', [], [], FiredAgain(st, k, w))
  {
    PartLedger(st, st', k, w);
    InsertBalanced(st, st', FiredAgain(st, k, w), [], [], FiredAgain(st, k, w));
  }

  lemma PartFires(st: State, e: Entry, w: Weather)
    requires e.Answered() && !w.Cancelled? && !Passes(st, e, w)
    ensures var h := e.block.height;
            FiredBlocks(Part(st, e, w)) == if w.BusFails? && w.after > 0 && h in st.responses then [h] else []
  {
    var part := Part(st, e, w);
    FiredPart(e, |part|);
    assert part == Messages(e)[..|part|];
  }

  lemma PartLedger(st: State, st': State, k: nat, w: Weather)
    requires AllAnswered(st.stack) && k < |st.stack|
    requires st'.bus == st.bus + AllMessages(st.stack[..k]) + Part(st, st.stack[k], w)
    requires !w.Cancelled? && !Passes(st, st.stack[k], w)
    ensures FiredBlocks(st'.bus) == FiredBlocks(st.bus) + FiredAgain(st, k, w)
  {
    FiredPrefix(st.bus, st.stack, k);
    FiredAppend(st.bus + AllMessages(st.stack[..k]), Part(st, st.stack[k], w));
    PartFires(st, st.stack[k], w);
    Regroup(FiredBlocks(st.bus), Heights(st.stack)[..k], FiredBlocks(Part(st, st.stack[k], w)));
  }

  lemma Regroup(a: seq<Height>, b: seq<Height>, c: seq<Height>)
    ensures a + b + c == a + (b + c)
  {
  }

  lemma StepLedger(st: State, op: Op)
    requires AllAnswered(st.stack) && (op.Execute? ==> op.entry.Answered())
    ensures Balanced(st, Step(st, op), ExecutedBy(op), DroppedBy(st, op), RepeatedBy(st, op))
  {
    match op
    case Execute(e, publishable, w) => if publishable { PublishLedger(st, e, w); } else { StackLedger(st, e, w); }
    case Final(_, _, _) => FinalLedger(st, op);
  }

  lemma AddUp(st: State, st': State, e: seq<Height>, d: seq<Height>, r: seq<Height>,
              e': seq<Height>, d': seq<Height>, r': seq<Height>)
    requires forall h :: Count(Line(st), h) + Count(d, h) == Count(e, h) + Count(r, h)
    requires Balanced(st, st', e', d', r')
    ensures forall h :: Count(Line(st'), h) + Count(d + d', h) == Count(e + e', h) + Count(r + r', h)
  {
    CountAppend(d, d');
    CountAppend(e, e');
    CountAppend(r, r');
  }

  lemma CountAppend(a: seq<Height>, b: seq<Height>)
    ensures forall h :: Count(a + b, h) == Count(a, h) + Count(b, h)
  {
  }

  /**
   Over any run, in any weather, height by height: an executed block is fired, waits or was
   dropped, and whatever was fired beyond that was fired by a failing call that kept it waiting.
   */
  lemma {:induction false} EventsAccounted(ops: seq<Op>)
    requires WellFormed(ops)
    ensures forall h :: Count(FiredBlocks(Run(ops).bus) + Heights(Run(ops).stack), h) + Count(Dropped(ops), h)
                     == Count(Executed(ops), h) + Count(Repeated(ops), h)
  {
    if ops == [] {
      assert Line(Run(ops)) == [];
    } else {
      var front, op := ops[..|ops| - 1], ops[|ops| - 1];
      var st := Run(front);
      EventsAccounted(front);
      StepLedger(st, op);
      AddUp(st, Step(st, op), Executed(front), Dropped(front), Repeated(front),
            ExecutedBy(op), DroppedBy(st, op), RepeatedBy(st, op));
    }
  }
}
