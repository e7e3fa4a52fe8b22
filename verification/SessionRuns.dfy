/** What holds over every run of a session, read off what it told its caller. */
module SessionRuns {
  import opened Machine
  import opened Session
  import Orders
  import Readiness

  datatype Op =
    | Taken(msg: Message)
    | Gave(issued: Orders.Issued, facts: Facts)
    | TurnOver
    | Restarted(facts: Facts)
    | Bound(player: nat)

  /** One step, and what it told; nothing where it broke the stream off. */
  function Next(s: State, op: Op): (r: (State, Option<Told>))
    requires s.Valid()
    ensures r.0.Valid()
  {
    match op
    case Taken(msg) =>
      var (t, r) := s.Take(msg);
      (t, if r.Ok? then Some(r.value) else None)
    case Gave(issued, facts) =>
      var (t, r) := s.Give(issued, facts);
      (t, Some(if r.Ok? then Given(r.value) else NotGiven(r.error)))
    case TurnOver => (s.(stream := s.stream.(unacked := None)), Some(TurnEnded(s.stream.unacked)))
    case Restarted(facts) =>
      var (t, r) := s.Resume(facts);
      (t, if r.Ok? then Some(Resumed(r.value)) else None)
    case Bound(player) => (s.Bind(player), Some(Welcomed(s.owner)))
  }

  /** The state a run comes to, all it told, and whether the stream is still whole. */
  datatype Run = Run(state: State, trace: seq<Told>, whole: bool)

  /** A run one step longer; one that was broken off stays as it is. */
  function Extended(run: Run, op: Op): (r: Run)
    requires run.state.Valid()
    ensures r.state.Valid()
  {
    if !run.whole then run
    else
      var (t, told) := Next(run.state, op);
      if told == None then Run(t, run.trace, false) else Run(t, run.trace + [told.value], true)
  }

  function After(s: State, ops: seq<Op>): (r: Run)
    requires s.Valid()
    ensures r.state.Valid()
  {
    if ops == [] then Run(s, [], true) else Extended(After(s, ops[..|ops| - 1]), ops[|ops| - 1])
  }

  lemma ExtendedWhole(run: Run, op: Op)
    requires run.state.Valid() && Extended(run, op).whole
    ensures var (t, told) := Next(run.state, op);
            run.whole && told.Some? && Extended(run, op) == Run(t, run.trace + [told.value], true)
  {
    hide Next;
  }

  /** A whole run is a whole run, and one step more that told something. */
  lemma {:induction false} AfterStep(s: State, ops: seq<Op>)
    requires s.Valid() && ops != [] && After(s, ops).whole
    ensures var before := After(s, ops[..|ops| - 1]);
            var (t, told) := Next(before.state, ops[|ops| - 1]);
            before.whole && told.Some? && After(s, ops) == Run(t, before.trace + [told.value], true)
  {
    hide Next, Extended;
    ExtendedWhole(After(s, ops[..|ops| - 1]), ops[|ops| - 1]);
  }

  // ---------- what a trace says ----------

  /** The snapshot whose events have not come yet. */
  function Open(trace: seq<Told>): Option<u32> {
    if trace == [] then None
    else
      match trace[|trace| - 1]
      case Folded(tick, _, _, _) => Some(tick)
      case Complete(_) => None
      case Resumed(_) => None
      case _ => Open(trace[..|trace| - 1])
  }

  /** Every snapshot comes with none open, every batch of events completes the open one, and the
      match ends with none open. */
  ghost predicate Orderly(trace: seq<Told>) {
    trace == [] ||
    (var before := trace[..|trace| - 1];
     Orderly(before) &&
     match trace[|trace| - 1]
     case Folded(_, _, _, _) => Open(before) == None
     case Complete(tick) => Open(before) == Some(tick)
     case Over => Open(before) == None
     case _ => true)
  }

  function SnapshotTicks(trace: seq<Told>): seq<u32> {
    if trace == [] then []
    else
      var last := trace[|trace| - 1];
      SnapshotTicks(trace[..|trace| - 1]) + if last.Folded? then [last.tick] else []
  }

  /** The ticks whose events were recorded, skipped ones among them. */
  function EventTicks(trace: seq<Told>): seq<u32> {
    if trace == [] then []
    else
      var last := trace[|trace| - 1];
      EventTicks(trace[..|trace| - 1]) + if last.Folded? then last.skipped else if last.Complete? then [last.tick]
        else []
  }

  /** The tick handed out to acknowledge, if one was. */
  function AckOf(told: Told): seq<u32> {
    if told.Folded? && told.ack.Some? then [told.ack.value]
    else if told.TurnEnded? && told.turn.Some? then [told.turn.value]
    else []
  }

  function Acks(trace: seq<Told>): seq<u32> {
    if trace == [] then [] else Acks(trace[..|trace| - 1]) + AckOf(trace[|trace| - 1])
  }

  /** Whether a message counts against the bound on a stream without snapshots. */
  predicate Counts(told: Told) { told.Complete? || told.Rejected? || told.Over? || (told.Passed? && told.counted) }

  /** The counted messages since the last snapshot or restart. */
  function Unanswered(trace: seq<Told>): nat {
    if trace == [] then 0
    else
      var last := trace[|trace| - 1];
      if last.Folded? || last.Resumed? then 0
      else Unanswered(trace[..|trace| - 1]) + if Counts(last) then 1 else 0
  }

  function NumbersOf(sent: seq<Outgoing>): (numbers: seq<u32>)
    ensures |numbers| == |sent|
  {
    if sent == [] then [] else NumbersOf(sent[..|sent| - 1]) + [sent[|sent| - 1].sequence]
  }

  function Numbers(trace: seq<Told>): seq<u32> {
    if trace == [] then []
    else
      var last := trace[|trace| - 1];
      Numbers(trace[..|trace| - 1]) +
      if last.Given? then [last.order.sequence] else if last.Resumed? then NumbersOf(last.resend) else []
  }

  lemma Snoc(trace: seq<Told>, told: Told)
    ensures (trace + [told])[..|trace|] == trace && (trace + [told])[|trace|] == told
  {
  }

  // ---------- orders touch no stream ----------

  /** What the stream's rules read, as one value. */
  datatype Reading = Reading(terms: Terms, policy: AckPolicy, owner: Option<u8>, tick: Option<u32>,
    lastEvent: Option<u32>, stream: Stream)

  function Read(s: State): Reading { Reading(s.terms, s.policy, s.owner, s.CurrentTick(), s.lastEvent, s.stream) }

  lemma GiveReads(s: State, issued: Orders.Issued, facts: Facts)
    requires s.Valid()
    ensures Read(s.Give(issued, facts).0) == Read(s) && s.Give(issued, facts).0.current == s.current
  {
    hide Orders.Ledger.Record, State.WaitsGiven;
  }

  lemma {:induction false} GiveAllReads(s: State, orders: seq<Orders.Issued>, facts: Facts)
    requires s.Valid()
    ensures Read(s.GiveAll(orders, facts).0) == Read(s) && s.GiveAll(orders, facts).0.current == s.current
  {
    if orders != [] {
      GiveAllReads(s, orders[..|orders| - 1], facts);
      GiveReads(s.GiveAll(orders[..|orders| - 1], facts).0, orders[|orders| - 1], facts);
      hide State.Give, Read;
    }
  }

  /** Whether the stream's ticks are acknowledged under the policy: only a seat's, and only in lockstep. */
  predicate OwesOn(r: Reading, policy: AckPolicy) { r.owner.Some? && r.terms.lockstep && r.policy == policy }

  /** What one step does to the stream, by what it told. */
  ghost predicate Moves(before: Reading, after: Reading, told: Told) {
    after.terms == before.terms && after.policy == before.policy && after.owner == before.owner &&
    match told
    case Folded(tick, skipped, _, ack) =>
      (before.owner.Some? ==> before.stream.pending == None) && Above(tick, before.tick) &&
      Rising(skipped) &&
      (skipped != [] ==> skipped[|skipped| - 1] < tick && Above(skipped[0], before.lastEvent)) &&
      after.tick == Some(tick) && after.lastEvent == (if skipped == [] then before.lastEvent else LastOf(skipped)) &&
      after.stream.pending == (if before.owner.Some? then Some(tick) else None) &&
      (before.owner.Some? ==> after.stream.withoutSnapshot == 0) &&
      ack == (if OwesOn(before, OnSnapshot) then Some(tick) else None) &&
      after.stream.unacked == (if OwesOn(before, AfterTurn) then Some(tick) else before.stream.unacked)
    case Complete(tick) =>
      Above(tick, before.lastEvent) && (before.owner.Some? ==> before.stream.pending == Some(tick)) &&
      after.tick == before.tick && after.lastEvent == Some(tick) && Quietly(before, after, told) &&
        after.stream.pending == None
    case Resumed(_) => after.tick == before.tick && after.lastEvent == before.lastEvent && after.stream == QUIET
    case TurnEnded(turn) =>
      after == before.(stream := after.stream) && turn == before.stream.unacked &&
        after.stream == before.stream.(unacked := None)
    case Over => (before.owner.Some? ==> before.stream.pending == None) && Idles(before, after, told)
    case _ => Idles(before, after, told)
  }

  /** Only the count of messages without a snapshot may move, and stays within its bound. */
  ghost predicate Quietly(before: Reading, after: Reading, told: Told) {
    after.stream.unacked == before.stream.unacked &&
    (before.owner.Some? ==>
       after.stream.withoutSnapshot == before.stream.withoutSnapshot + (if Counts(told) then 1 else 0) &&
       (Counts(told) ==> after.stream.withoutSnapshot <= MAX_MESSAGES_WITHOUT_SNAPSHOT))
  }

  ghost predicate Idles(before: Reading, after: Reading, told: Told) {
    after == before.(stream := after.stream) && after.stream.pending == before.stream.pending &&
      Quietly(before, after, told)
  }

  lemma TakeMoves(s: State, msg: Message)
    requires s.Valid() && s.Take(msg).1.Ok?
    ensures Moves(Read(s), Read(s.Take(msg).0), s.Take(msg).1.value)
  {
    hide Readiness.Waits.Synchronize, Readiness.Waits.Reject, Readiness.Waits.Valid, Orders.Ledger.Reject,
      Orders.Ledger.Clear;
  }

  lemma RestartMoves(s: State, facts: Facts)
    requires s.Valid()
    ensures var t := s.Resume(facts).0;
            Read(t) == Read(s).(stream := QUIET)
  {
    GiveAllReads(s.(stream := QUIET), s.GivenAgain(), facts);
    hide State.GiveAll, State.GivenAgain;
  }

  lemma StillMoves(r: Reading, told: Told)
    requires told.Given? || told.NotGiven? || told.Welcomed?
    ensures Moves(r, r, told)
  {
  }

  lemma TurnMoves(r: Reading)
    ensures Moves(r, r.(stream := r.stream.(unacked := None)), TurnEnded(r.stream.unacked))
  {
  }

  lemma QuietMoves(r: Reading, resend: seq<Outgoing>)
    ensures Moves(r, r.(stream := QUIET), Resumed(resend))
  {
  }

  lemma StepMoves(s: State, op: Op)
    requires s.Valid() && Next(s, op).1.Some?
    ensures Moves(Read(s), Read(Next(s, op).0), Next(s, op).1.value)
  {
    hide Moves, State.Take, State.Give, State.Resume, State.Bind;
    match op
    case Taken(msg) =>
      TakeMoves(s, msg);
    case Gave(issued, facts) =>
      GiveReads(s, issued, facts);
      StillMoves(Read(s), Next(s, op).1.value);
    case TurnOver =>
      TurnMoves(Read(s));
    case Restarted(facts) =>
      RestartMoves(s, facts);
      QuietMoves(Read(s), s.Resume(facts).1.value);
    case Bound(player) =>
      BindReads(s, player);
      StillMoves(Read(s), Welcomed(s.owner));
  }

  lemma BindReads(s: State, player: nat)
    requires s.Valid()
    ensures Read(s.Bind(player)) == Read(s)
  {
  }

  // ---------- every run of a stream ----------

  /** The state a strict stream is in is the one its trace says. */
  ghost predicate InOrder(r: Reading, trace: seq<Told>) {
    r.owner.Some? ==> Orderly(trace) && r.stream.pending == Open(trace)
  }

  /** The last ticks are the trace's, and the ticks of either kind only rise. */
  ghost predicate TicksRise(r: Reading, trace: seq<Told>) {
    r.tick == LastOf(SnapshotTicks(trace)) && Rising(SnapshotTicks(trace)) &&
    r.lastEvent == LastOf(EventTicks(trace)) && Rising(EventTicks(trace))
  }

  /** Only snapshot ticks were handed out to acknowledge, each once, and one still owed is newer than all of them. */
  ghost predicate AcksOnce(r: Reading, trace: seq<Told>) {
    Rising(Acks(trace)) && Within(Acks(trace), SnapshotTicks(trace)) &&
    Owed(r, LastOf(Acks(trace)))
  }

  ghost predicate Owed(r: Reading, newest: Option<u32>) {
    (newest.Some? ==> r.tick.Some? && newest.value <= r.tick.value) &&
    (r.stream.unacked.Some? ==> r.stream.unacked == r.tick && OwesOn(r, AfterTurn) && Above(r.tick.value, newest))
  }

  predicate Within(some: seq<u32>, all: seq<u32>) { forall tick :: tick in some ==> tick in all }

  ghost predicate Bounded(r: Reading, trace: seq<Told>) {
    r.owner.Some? ==> r.stream.withoutSnapshot == Unanswered(trace) <= MAX_MESSAGES_WITHOUT_SNAPSHOT
  }

  lemma RisingAppend(a: seq<u32>, b: seq<u32>)
    requires Rising(a) && Rising(b) && (b != [] ==> Above(b[0], LastOf(a)))
    ensures Rising(a + b) && LastOf(a + b) == if b == [] then LastOf(a) else LastOf(b)
  {
    assert b == [] ==> a + b == a;
  }

  lemma OrderStep(before: Reading, after: Reading, trace: seq<Told>, told: Told)
    requires InOrder(before, trace) && Moves(before, after, told)
    ensures InOrder(after, trace + [told])
  {
    Snoc(trace, told);
  }

  lemma TicksStep(before: Reading, after: Reading, trace: seq<Told>, told: Told)
    requires TicksRise(before, trace) && Moves(before, after, told)
    ensures TicksRise(after, trace + [told])
  {
    Snoc(trace, told);
    var snapshot := if told.Folded? then [told.tick] else [];
    var events := if told.Folded? then told.skipped else if told.Complete? then [told.tick] else [];
    assert SnapshotTicks(trace + [told]) == SnapshotTicks(trace) + snapshot;
    assert EventTicks(trace + [told]) == EventTicks(trace) + events;
    RisingAppend(SnapshotTicks(trace), snapshot);
    RisingAppend(EventTicks(trace), events);
  }

  lemma WithinGrows(some: seq<u32>, all: seq<u32>, next: seq<u32>, last: seq<u32>)
    requires Within(some, all) && Within(next, all + last)
    ensures Within(some + next, all + last)
  {
  }

  lemma OwedStep(before: Reading, after: Reading, newest: Option<u32>, told: Told)
    requires Owed(before, newest) && Moves(before, after, told)
    ensures AckOf(told) != [] ==>
            |AckOf(told)| == 1 && Above(AckOf(told)[0], newest) && Some(AckOf(told)[0]) == after.tick
    ensures Owed(after, if AckOf(told) == [] then newest else Some(AckOf(told)[0]))
  {
    hide Rising;
  }

  /** The tick is the newest snapshot's, and a snapshot's own tick joins it. */
  lemma AckedTickKnown(before: Reading, after: Reading, ticks: seq<u32>, told: Told)
    requires before.tick == LastOf(ticks) && Moves(before, after, told)
    ensures after.tick == LastOf(ticks + if told.Folded? then [told.tick] else [])
  {
    hide Rising;
    assert ticks + [] == ticks;
  }

  lemma AcksStep(before: Reading, after: Reading, trace: seq<Told>, told: Told)
    requires TicksRise(before, trace) && AcksOnce(before, trace) && Moves(before, after, told)
    ensures AcksOnce(after, trace + [told])
  {
    Snoc(trace, told);
    var acks, ticks, last, ack := Acks(trace), SnapshotTicks(trace), if told.Folded? then [told.tick]
      else [], AckOf(told);
    assert Acks(trace + [told]) == acks + ack && SnapshotTicks(trace + [told]) == ticks + last;
    OwedStep(before, after, LastOf(acks), told);
    AckedTickKnown(before, after, ticks, told);
    hide Acks, SnapshotTicks, EventTicks, Moves, Owed, AckOf;
    assert Within(ack, ticks + last);
    WithinGrows(acks, ticks, ack, last);
    hide Within;
    RisingAppend(acks, ack);
  }

  lemma CountStep(before: Reading, after: Reading, trace: seq<Told>, told: Told)
    requires Bounded(before, trace) && Moves(before, after, told)
    ensures Bounded(after, trace + [told])
  {
    Snoc(trace, told);
  }

  /** Over every run of a session's stream, whoever watches it: ticks of either kind only rise and
      each is acknowledged at most once; and on a seat's own stream, snapshots and events alternate
      on equal ticks, the match ends between ticks, and messages without a snapshot stay bounded. */
  lemma {:induction false} EveryRun(terms: Terms, policy: AckPolicy, owner: Option<u8>, ops: seq<Op>)
    requires After(Opening(terms, policy, owner), ops).whole
    ensures var r := After(Opening(terms, policy, owner), ops);
            Read(r.state).terms == terms && Read(r.state).owner == owner && Read(r.state).policy == policy &&
            InOrder(Read(r.state), r.trace) && TicksRise(Read(r.state), r.trace) &&
            AcksOnce(Read(r.state), r.trace) && Bounded(Read(r.state), r.trace)
  {
    hide Moves, InOrder, TicksRise, AcksOnce, Bounded, Next;
    if ops == [] {
      OpeningReads(terms, policy, owner);
    } else {
      AfterStep(Opening(terms, policy, owner), ops);
      hide After, Read;
      var before := After(Opening(terms, policy, owner), ops[..|ops| - 1]);
      EveryRun(terms, policy, owner, ops[..|ops| - 1]);
      StepMoves(before.state, ops[|ops| - 1]);
      var (t, told) := Next(before.state, ops[|ops| - 1]);
      SameTerms(Read(before.state), Read(t), told.value);
      OrderStep(Read(before.state), Read(t), before.trace, told.value);
      TicksStep(Read(before.state), Read(t), before.trace, told.value);
      AcksStep(Read(before.state), Read(t), before.trace, told.value);
      CountStep(Read(before.state), Read(t), before.trace, told.value);
    }
  }

  lemma SameTerms(before: Reading, after: Reading, told: Told)
    requires Moves(before, after, told)
    ensures after.terms == before.terms && after.policy == before.policy && after.owner == before.owner
  {
    hide Rising;
  }

  lemma OpeningReads(terms: Terms, policy: AckPolicy, owner: Option<u8>)
    ensures var r := Read(Opening(terms, policy, owner));
            r.terms == terms && r.policy == policy && r.owner == owner &&
            InOrder(r, []) && TicksRise(r, []) && AcksOnce(r, []) && Bounded(r, [])
  {
  }

  /** Between two snapshots of an orderly stream, but for a restart, the first one's events came. */
  lemma {:induction false} EventsBetweenSnapshots(trace: seq<Told>, i: nat, j: nat)
    requires Orderly(trace) && i < j < |trace| && trace[i].Folded? && trace[j].Folded?
    requires forall k :: i < k < j ==> !trace[k].Resumed? && !trace[k].Folded?
    ensures exists k :: i < k < j && trace[k] == Complete(trace[i].tick)
    decreases |trace|
  {
    var before := trace[..|trace| - 1];
    if j < |trace| - 1 {
      assert before[i] == trace[i] && before[j] == trace[j];
      EventsBetweenSnapshots(before, i, j);
      var k :| i < k < j && before[k] == Complete(before[i].tick);
      assert trace[k] == Complete(trace[i].tick);
    } else {
      ClosedSince(before, i);
    }
  }

  /** Once a snapshot is no longer open, its events came. */
  lemma {:induction false} ClosedSince(trace: seq<Told>, i: nat)
    requires Orderly(trace) && i < |trace| && trace[i].Folded?
    requires forall k :: i < k < |trace| ==> !trace[k].Resumed? && !trace[k].Folded?
    ensures Open(trace) == Some(trace[i].tick) || exists k :: i < k < |trace| && trace[k] == Complete(trace[i].tick)
    decreases |trace|
  {
    if i < |trace| - 1 {
      var before := trace[..|trace| - 1];
      assert before[i] == trace[i];
      ClosedSince(before, i);
      if exists k :: i < k < |before| && before[k] == Complete(before[i].tick) {
        var k :| i < k < |before| && before[k] == Complete(before[i].tick);
        assert trace[k] == Complete(trace[i].tick);
      } else if trace[|trace| - 1].Complete? {
        assert trace[|trace| - 1] == Complete(trace[i].tick);
      }
    }
  }
}
