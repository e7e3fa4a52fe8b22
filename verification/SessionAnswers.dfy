/** What a session answers, said of its trace alone: which messages continue the stream, what each
    tells the caller, which fault a refusal names, and which ticks are acknowledged. */
module SessionAnswers {
  import opened Machine
  import opened Session
  import opened SessionRuns
  import Orders
  import Readiness

  /** A seat's stream has room for one more message without a snapshot. */
  ghost predicate Room(owner: Option<u8>, trace: seq<Told>) {
    owner.Some? ==> Unanswered(trace) < MAX_MESSAGES_WITHOUT_SNAPSHOT
  }

  /** The messages that continue the stream a trace tells of. */
  ghost predicate Continues(owner: Option<u8>, trace: seq<Told>, msg: Message) {
    match msg
    case Snapshot(view) =>
      (owner.Some? ==> Open(trace) == None) && view.sound && Above(view.tick, LastOf(SnapshotTicks(trace))) &&
      (forall i, j :: 0 <= i < j < |view.skipped| ==> view.skipped[i] < view.skipped[j]) &&
      forall skipped :: skipped in view.skipped ==>
        skipped < view.tick && Above(skipped, LastOf(SnapshotTicks(trace))) &&
          Above(skipped, LastOf(EventTicks(trace)))
    case Events(tick, sound) =>
      sound && Above(tick, LastOf(EventTicks(trace))) && (owner.Some? ==> Open(trace) == Some(tick)) &&
      Room(owner, trace)
    case MatchOver => (owner.Some? ==> Open(trace) == None) && Room(owner, trace)
    case LobbyState(sound) => sound && Room(owner, trace)
    case Heard(_) => true
    case SayRefused => true
    case Ping => true
    case Echo => true
    case OrderReceived => true
    case OrderRejected(_) => Room(owner, trace)
    case Welcome(_, _) => Room(owner, trace)
    case OrdersTold => Room(owner, trace)
    case ParticipantLeft => Room(owner, trace)
    case _ => false
  }

  /** What an accepted message tells. */
  ghost predicate Tells(msg: Message, told: Told) {
    match msg
    case Snapshot(view) => told.Folded? && told.tick == view.tick && told.skipped == view.skipped
    case Events(tick, _) => told == Complete(tick)
    case OrderRejected(sequence) => told == Rejected(sequence)
    case MatchOver => told == Over
    case Heard(fits) => told == if fits then Passed(false) else Unheard
    case SayRefused => told == Passed(false)
    case Ping => told == Passed(false)
    case Echo => told == Passed(false)
    case OrderReceived => told == Passed(false)
    case _ => told == Passed(true)
  }

  /** Each refusal names what is wrong with its message. */
  ghost predicate Faulty(owner: Option<u8>, trace: seq<Told>, msg: Message, error: SessionError) {
    match error
    case TooManyMessages => !Room(owner, trace) && !msg.Snapshot? && !msg.Heard? && !msg.Ping?
    case SnapshotBeforeEvents => msg.Snapshot? && owner.Some? && Open(trace).Some?
    case SnapshotTick(incoming, current) =>
      msg.Snapshot? && incoming == msg.view.tick && LastOf(SnapshotTicks(trace)) == Some(current) && incoming <= current
    case SkippedTicks(incoming) => msg.Snapshot? && incoming == msg.view.tick && msg.view.skipped != []
    case EventTickNotIncreasing(incoming, previous) =>
      msg.Events? && incoming == msg.tick && LastOf(EventTicks(trace)) == Some(previous) && incoming <= previous
    case EventsWithoutSnapshot => msg.Events? && owner.Some? && Open(trace) != Some(msg.tick)
    case OverBeforeEvents => msg.MatchOver? && owner.Some? && Open(trace).Some?
    case RepeatedMatchStart => msg.MatchStart?
    case SceneryAfterStart => msg.Scenery?
    case WireDiffers => msg.WireMismatch?
    case TurnedAway => msg.Refused?
    case Unpacked => msg.Compressed?
    case Unsound =>
      (msg.Snapshot? && !msg.view.sound) || (msg.Events? && !msg.sound) || (msg.LobbyState? && !msg.sound)
    case _ => false
  }

  /** A reading that is its trace's. */
  ghost predicate Reads(s: State, trace: seq<Told>) {
    s.Valid() && InOrder(Read(s), trace) && TicksRise(Read(s), trace) && Bounded(Read(s), trace)
  }

  /** Ticks that rise, the last below one bound and the first above another, all lie between. */
  lemma SkipsBetween(view: View, current: Option<u32>, lastEvent: Option<u32>)
    ensures SkipsFit(view, current, lastEvent) <==>
            (forall i, j :: 0 <= i < j < |view.skipped| ==> view.skipped[i] < view.skipped[j]) &&
            forall skipped :: skipped in view.skipped ==>
              skipped < view.tick && Above(skipped, current) && Above(skipped, lastEvent)
  {
    var n := |view.skipped|;
    if SkipsFit(view, current, lastEvent) {
      forall i | 0 <= i < n
        ensures view.skipped[0] <= view.skipped[i] <= view.skipped[n - 1]
      {
      }
    } else if n > 0 {
      assert view.skipped[0] in view.skipped && view.skipped[n - 1] in view.skipped;
    }
  }

  lemma AcceptsWhen(s: State, trace: seq<Told>, msg: Message)
    requires Reads(s, trace)
    ensures s.Take(msg).1.Ok? <==> Continues(s.owner, trace, msg)
  {
    hide Readiness.Waits.Synchronize, Readiness.Waits.Reject, Readiness.Waits.Valid, Orders.Ledger.Reject,
      Orders.Ledger.Clear, Rising, SnapshotTicks, EventTicks, Unanswered, Open, Orderly;
    if msg.Snapshot? {
      SkipsBetween(msg.view, s.CurrentTick(), s.lastEvent);
      hide SkipsFit;
    }
  }

  lemma TellsOf(s: State, msg: Message)
    requires s.Valid() && s.Take(msg).1.Ok?
    ensures Tells(msg, s.Take(msg).1.value)
  {
    hide Readiness.Waits.Synchronize, Readiness.Waits.Reject, Readiness.Waits.Valid, Orders.Ledger.Reject,
      Orders.Ledger.Clear, SkipsFit;
  }

  lemma SnapshotFault(s: State, trace: seq<Told>, view: View)
    requires Reads(s, trace) && s.SnapshotError(view).Some?
    ensures Faulty(s.owner, trace, Snapshot(view), s.SnapshotError(view).value)
  {
    assert view.skipped == [] ==> SkipsFit(view, s.CurrentTick(), s.lastEvent);
    hide SkipsFit, Rising, SnapshotTicks, EventTicks, Unanswered, Open, Orderly, Readiness.Waits.Valid;
  }

  lemma EventsFault(s: State, trace: seq<Told>, tick: u32, sound: bool)
    requires Reads(s, trace) && s.EventsError(tick, sound).Some?
    ensures Faulty(s.owner, trace, Events(tick, sound), s.EventsError(tick, sound).value)
  {
    hide Rising, SnapshotTicks, EventTicks, Unanswered, Open, Orderly, Readiness.Waits.Valid;
  }

  lemma FaultOf(s: State, trace: seq<Told>, msg: Message)
    requires Reads(s, trace) && s.Take(msg).1.Err?
    ensures Faulty(s.owner, trace, msg, s.Take(msg).1.error)
  {
    hide Readiness.Waits.Synchronize, Readiness.Waits.Reject, Readiness.Waits.Valid, Orders.Ledger.Reject,
      Orders.Ledger.Clear, Rising, SnapshotTicks, EventTicks, Unanswered, Open, Orderly, TicksRise;
    if s.TooMany(msg) {
      hide State.SnapshotError, State.EventsError;
    } else {
      match msg
      case Snapshot(view) =>
        hide Faulty, State.SnapshotError, State.Fold, InOrder, Bounded;
        SnapshotFault(s, trace, view);
      case Events(tick, sound) =>
        hide Faulty, State.EventsError, InOrder, Bounded;
        EventsFault(s, trace, tick, sound);
      case _ =>
    }
  }

  /** After every run of a session, exactly the messages that continue its trace are accepted; each
      tells its own, and each refusal names a fault of the message it refuses. */
  lemma AcceptsExactly(terms: Terms, policy: AckPolicy, owner: Option<u8>, ops: seq<Op>, msg: Message)
    requires After(Opening(terms, policy, owner), ops).whole
    ensures var run := After(Opening(terms, policy, owner), ops);
            var answer := run.state.Take(msg).1;
            (answer.Ok? <==> Continues(owner, run.trace, msg)) &&
            (answer.Ok? ==> Tells(msg, answer.value)) &&
            (answer.Err? ==> Faulty(owner, run.trace, msg, answer.error))
  {
    EveryRun(terms, policy, owner, ops);
    hide After, Opening, State.Take, State.Valid, InOrder, TicksRise, Bounded, Continues, Tells, Faulty;
    var run := After(Opening(terms, policy, owner), ops);
    AcceptsWhen(run.state, run.trace, msg);
    if run.state.Take(msg).1.Ok? {
      TellsOf(run.state, msg);
    } else {
      FaultOf(run.state, run.trace, msg);
    }
  }

  // ---------- acknowledgements ----------

  /** The tick a turn would acknowledge: the newest snapshot's since the last turn or restart. */
  function Owing(trace: seq<Told>): Option<u32> {
    if trace == [] then None
    else
      match trace[|trace| - 1]
      case Folded(tick, _, _, _) => Some(tick)
      case TurnEnded(_) => None
      case Resumed(_) => None
      case _ => Owing(trace[..|trace| - 1])
  }

  /** What every turn of a trace should have acknowledged. */
  ghost predicate TurnsAnswer(trace: seq<Told>) {
    trace == [] ||
    (TurnsAnswer(trace[..|trace| - 1]) &&
     (trace[|trace| - 1].TurnEnded? ==> trace[|trace| - 1].turn == Owing(trace[..|trace| - 1])))
  }

  ghost predicate Answered(r: Reading, trace: seq<Told>) {
    if r.owner == None || !r.terms.lockstep || r.policy == Never then r.stream.unacked == None && Acks(trace) == []
    else if r.policy == OnSnapshot then r.stream.unacked == None && Acks(trace) == SnapshotTicks(trace)
    else r.stream.unacked == Owing(trace) && TurnsAnswer(trace)
  }

  /** What a step adds to the ticks acknowledged and to those of snapshots. */
  lemma TicksAdded(trace: seq<Told>, told: Told)
    ensures Acks(trace + [told]) == Acks(trace) + AckOf(told)
    ensures SnapshotTicks(trace + [told]) == SnapshotTicks(trace) + if told.Folded? then [told.tick] else []
    ensures SnapshotTicks(trace) + [] == SnapshotTicks(trace) && Acks(trace) + [] == Acks(trace)
  {
    Snoc(trace, told);
  }

  /** What a step leaves owing. */
  lemma OwingAfter(trace: seq<Told>, told: Told)
    ensures TurnsAnswer(trace + [told]) <==> TurnsAnswer(trace) && (told.TurnEnded? ==> told.turn == Owing(trace))
    ensures Owing(trace + [told]) == if told.Folded? then Some(told.tick)
            else if told.TurnEnded? || told.Resumed? then None else Owing(trace)
  {
    Snoc(trace, told);
  }

  lemma AnsweredStep(before: Reading, after: Reading, trace: seq<Told>, told: Told)
    requires Answered(before, trace) && Moves(before, after, told)
    ensures Answered(after, trace + [told])
  {
    hide Rising, Above, Acks, SnapshotTicks, Owing, TurnsAnswer, Counts;
    if before.owner.Some? && before.terms.lockstep && before.policy == AfterTurn {
      OwingAfter(trace, told);
    } else {
      TicksAdded(trace, told);
    }
  }

  /** Over every run no tick of a seat's lockstep stream goes unanswered: under the one policy every
      snapshot is acknowledged as it comes; under the other every turn acknowledges the newest snapshot
      since the turn before, if any came. Any other stream acknowledges nothing. */
  lemma {:induction false} EveryTickAnswered(terms: Terms, policy: AckPolicy, owner: Option<u8>, ops: seq<Op>)
    requires After(Opening(terms, policy, owner), ops).whole
    ensures var run := After(Opening(terms, policy, owner), ops);
            if owner == None || !terms.lockstep || policy == Never then Acks(run.trace) == []
            else if policy == OnSnapshot then Acks(run.trace) == SnapshotTicks(run.trace)
            else TurnsAnswer(run.trace) && run.state.stream.unacked == Owing(run.trace)
  {
    AnsweredRun(terms, policy, owner, ops);
    EveryRun(terms, policy, owner, ops);
    hide After, Opening, InOrder, TicksRise, AcksOnce, Bounded, TurnsAnswer, Owing, Acks, SnapshotTicks;
  }

  lemma {:induction false} AnsweredRun(terms: Terms, policy: AckPolicy, owner: Option<u8>, ops: seq<Op>)
    requires After(Opening(terms, policy, owner), ops).whole
    ensures Answered(Read(After(Opening(terms, policy, owner), ops).state), After(Opening(terms, policy, owner),
              ops).trace)
  {
    hide Moves, Next, Answered;
    if ops == [] {
      OpeningAnswered(terms, policy, owner);
    } else {
      AfterStep(Opening(terms, policy, owner), ops);
      hide After, Read;
      var before := After(Opening(terms, policy, owner), ops[..|ops| - 1]);
      AnsweredRun(terms, policy, owner, ops[..|ops| - 1]);
      StepMoves(before.state, ops[|ops| - 1]);
      var (t, told) := Next(before.state, ops[|ops| - 1]);
      AnsweredStep(Read(before.state), Read(t), before.trace, told.value);
    }
  }

  lemma OpeningAnswered(terms: Terms, policy: AckPolicy, owner: Option<u8>)
    ensures Answered(Read(Opening(terms, policy, owner)), [])
  {
  }
}
