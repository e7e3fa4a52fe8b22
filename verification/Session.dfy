/** session.rs: the stream of one client's match, and the orders given on it. */
module Session {
  import opened Machine
  import Confirming
  import Orders
  import Readiness
  import Stacking

  const MAX_MESSAGES_WITHOUT_SNAPSHOT: nat := 4096

  datatype AckPolicy = AfterTurn | OnSnapshot | Never

  /** A seat's hero in the match, and whether its side is one that plays. */
  datatype Pick = Pick(hero: u16, playable: bool)

  /** A match's immutable terms; `rest` stands for those only compared as a whole. */
  datatype Terms = Terms(map_: u16, trees: seq<Vec2>, tickRate: u16, lockstep: bool, roster: map<u8, Pick>, rest: nat)

  /** A match start as sent; it may fail the checks of the terms themselves. */
  datatype MatchInfo = MatchInfo(terms: Terms, sound: bool)

  /** The stacks a snapshot shows in the swap slots, and whether the hero is at a shop. */
  datatype Carried = Carried(slots: seq<Readiness.SwapItem>, atShop: bool)

  /** Every swap slot is told of. */
  type Bag = bag: Carried | |bag.slots| == Readiness.SWAP_SLOTS
    witness Carried(seq(Readiness.SWAP_SLOTS, _ => Readiness.SwapItem(None, 0, 0, 0, false)), false)

  /** What predictions are weighed against: the bag, and the orders settled. */
  function ContextOf(bag: Bag, through: u32): (context: Readiness.Context)
    ensures |context.slots| == Readiness.SWAP_SLOTS
  {
    Readiness.Context(bag.slots, bag.atShop, through)
  }

  /** Which life of the own hero it is: falling and standing up again both change it. */
  datatype OwnBody = OwnBody(unit: Orders.EntityId, deaths: u16, stands: bool)

  /** What the stream's rules read of a snapshot; `sound` says it passes every other check. */
  datatype View = View(tick: u32, skipped: seq<u32>, sound: bool, body: Option<OwnBody>, heroSeen: bool, bag: Bag,
                       settled: Option<Confirming.Settlement>)

  datatype Message =
    | Snapshot(view: View)
    | Events(tick: u32, sound: bool)
    | OrderRejected(sequence: u32)
    | MatchOver
    | MatchStart(info: MatchInfo)
    | Scenery(map_: u16, trees: seq<Vec2>)
    | Welcome(player: nat, slot: Option<u8>)
    | LobbyState(sound: bool)
    | Heard(fits: bool)
    | SayRefused
    | Ping
    | Echo
    | OrderReceived
    | OrdersTold
    | ParticipantLeft
    | WireMismatch
    | Refused
    | Compressed
  {
    /** Chat and connection housekeeping flow whatever the match does. */
    predicate Free() { Heard? || SayRefused? || Ping? || Echo? || OrderReceived? }
  }

  datatype SessionError =
    | TooManyMessages
    | SnapshotBeforeEvents
    | SnapshotTick(incoming: u32, current: u32)
    | SkippedTicks(incoming: u32)
    | EventTickNotIncreasing(incoming: u32, previous: u32)
    | EventsWithoutSnapshot
    | OverBeforeEvents
    | RepeatedMatchStart
    | SceneryAfterStart
    | SceneryTwice
    | OtherScenery
    | OtherSeat
    | OtherMatch
    | BeforeMatchStart
    | Unpacked
    | Unsound
    | StartMismatch
    | Unplayable
    | WireDiffers
    | TurnedAway
    | NoSnapshot
    | SequenceExhausted
    | OrderSequence(refused: Orders.OrderError)

  datatype Outgoing = Outgoing(sequence: u32, issued: Orders.Issued, seen: u32)

  /** What an accepted step told its caller. */
  datatype Told =
    | Folded(tick: u32, skipped: seq<u32>, bodyChanged: bool, ack: Option<u32>)
    | Complete(tick: u32)
    | Rejected(sequence: u32)
    | Over
    | Passed(counted: bool)
    | Unheard
    | Welcomed(welcomed: Option<u8>)
    | Started
    | Resumed(resend: seq<Outgoing>)
    | Given(order: Outgoing)
    | NotGiven(error: SessionError)
    | TurnEnded(turn: Option<u32>)

  /** What the session reads elsewhere to give an order: whether the order ends what its body does,
      whether the item it uses shares a wait, and the ticks orders take to land. */
  datatype Facts = Facts(ends: bool, sharesWait: bool, lands: u32, cat: Stacking.Catalogue)

  /** The body whose shared wait an order starts. */
  function WaitStartedBy(issued: Orders.Issued, sharesWait: bool): Option<Readiness.Body> {
    if issued.order.Use? && sharesWait then Some(if issued.unit.Some? then Readiness.Courier else Readiness.Hero)
      else None
  }

  /** The swap whose mutes an order starts: a courier's bag has no backpack. */
  function SwapOf(issued: Orders.Issued): Option<Readiness.Swap> {
    if issued.order.SwapSlots? && issued.unit == None then Some(Readiness.Swap(issued.order.from, issued.order.to))
      else None
  }

  /** Strictly rising. */
  predicate Rising(ticks: seq<u32>) { forall i, j :: 0 <= i < j < |ticks| ==> ticks[i] < ticks[j] }

  function LastOf(ticks: seq<u32>): Option<u32> { if ticks == [] then None else Some(ticks[|ticks| - 1]) }

  /** Nothing is above an absent tick. */
  predicate Above(tick: u32, than: Option<u32>) { than.Some? ==> tick > than.value }

  /** The ticks skipped lie in order between what was last told and the snapshot. */
  predicate SkipsFit(view: View, current: Option<u32>, lastEvent: Option<u32>) {
    Rising(view.skipped) &&
    (view.skipped != [] ==>
       view.skipped[|view.skipped| - 1] < view.tick && Above(view.skipped[0], current) &&
         Above(view.skipped[0], lastEvent))
  }

  datatype Stream = Stream(pending: Option<u32>, withoutSnapshot: nat, unacked: Option<u32>)

  const QUIET := Stream(None, 0, None)

  datatype State = State(terms: Terms, policy: AckPolicy, owner: Option<u8>, confirmed: Confirming.Confirmed,
                         current: Option<View>, lastEvent: Option<u32>, ledger: Orders.Ledger,
                         waits: Readiness.Waits, nextSeq: u32, stream: Stream)
  {
    ghost predicate Valid() { |ledger.bodies| == 2 && waits.Valid() }

    predicate Strict() { owner.Some? }

    function CurrentTick(): Option<u32> { if current.Some? then Some(current.value.tick) else None }

    function Body(): Option<OwnBody> { if current.Some? then current.value.body else None }

    /** The stream after a message is counted against the bound on one without snapshots. */
    function Counted(msg: Message): State {
      if !Strict() || msg.Free() then this
      else this.(stream := stream.(withoutSnapshot := if msg.Snapshot? then 0 else stream.withoutSnapshot + 1))
    }

    predicate TooMany(msg: Message) {
      Strict() && !msg.Free() && !msg.Snapshot? && stream.withoutSnapshot + 1 > MAX_MESSAGES_WITHOUT_SNAPSHOT
    }

    function SnapshotError(view: View): Option<SessionError> {
      if Strict() && stream.pending.Some? then Some(SnapshotBeforeEvents)
      else if !Above(view.tick, CurrentTick()) then Some(SnapshotTick(view.tick, CurrentTick().value))
      else if !SkipsFit(view, CurrentTick(), lastEvent) then Some(SkippedTicks(view.tick))
      else if !view.sound then Some(Unsound)
      else None
    }

    predicate BodyChanges(view: View) { Strict() && Body() != view.body }

    function Settled(tick: u32): Stream {
      stream.(pending := if Strict() then Some(tick) else None,
              unacked := if Strict() && terms.lockstep && policy == AfterTurn then Some(tick) else stream.unacked)
    }

    function AckNow(tick: u32): Option<u32> {
      if Strict() && terms.lockstep && policy == OnSnapshot then Some(tick) else None
    }

    /** Only a seat's own settlement is told to it. */
    function SettledBy(view: View): Confirming.Confirmed {
      confirmed.Snapshot(if Strict() then view.settled else None, view.tick)
    }

    function Fold(view: View): (s: State)
      requires Valid()
      ensures s.Valid()
    {
      var settled := SettledBy(view);
      this.(current := Some(view),
            confirmed := settled,
            lastEvent := if view.skipped == [] then lastEvent else LastOf(view.skipped),
            ledger := if BodyChanges(view) then ledger.Clear(None) else ledger,
            waits := waits.Synchronize(view.tick, ContextOf(view.bag, settled.through)),
            stream := Settled(view.tick))
    }

    function EventsError(tick: u32, sound: bool): Option<SessionError> {
      if !sound then Some(Unsound)
      else if !Above(tick, lastEvent) then Some(EventTickNotIncreasing(tick, lastEvent.value))
      else if Strict() && stream.pending != Some(tick) then Some(EventsWithoutSnapshot)
      else None
    }

    function Take(msg: Message): (r: (State, Result<Told, SessionError>))
      requires Valid()
      ensures r.0.Valid()
    {
      var s := Counted(msg);
      if TooMany(msg) then (s, Err(TooManyMessages))
      else
        match msg
        case Snapshot(view) =>
          if SnapshotError(view).Some? then (s, Err(SnapshotError(view).value))
          else (s.Fold(view), Ok(Folded(view.tick, view.skipped, BodyChanges(view), AckNow(view.tick))))
        case Events(tick, sound) =>
          if EventsError(tick, sound).Some? then (s, Err(EventsError(tick, sound).value))
          else (s.(lastEvent := Some(tick), stream := s.stream.(pending := None)), Ok(Complete(tick)))
        case OrderRejected(sequence) =>
          (s.(ledger := ledger.Reject(sequence), waits := waits.Reject(sequence)), Ok(Rejected(sequence)))
        case MatchOver => if Strict() && stream.pending.Some? then (s, Err(OverBeforeEvents)) else (s, Ok(Over))
        case MatchStart(_) => (s, Err(RepeatedMatchStart))
        case Scenery(_, _) => (s, Err(SceneryAfterStart))
        case WireMismatch => (s, Err(WireDiffers))
        case Refused => (s, Err(TurnedAway))
        case Compressed => (s, Err(Unpacked))
        case LobbyState(sound) => if sound then (s, Ok(Passed(true))) else (s, Err(Unsound))
        case Heard(fits) => (s, Ok(if fits then Passed(false) else Unheard))
        case _ => (s, Ok(Passed(!msg.Free())))
    }

    function WaitsGiven(sequence: u32, issued: Orders.Issued, view: View, facts: Facts): (w: Readiness.Waits)
      requires Valid()
      ensures w.Valid()
    {
      var body := WaitStartedBy(issued, facts.sharesWait);
      var started := if !issued.Waits() && body.Some? then waits.Start(body.value, sequence, view.tick) else waits;
      started.StartMutes(facts.cat, sequence, SwapOf(issued), view.tick, facts.lands,
        ContextOf(view.bag, confirmed.through))
    }

    function Give(issued: Orders.Issued, facts: Facts): (r: (State, Result<Outgoing, SessionError>))
      requires Valid()
      ensures r.0.Valid()
    {
      if current == None then (this, Err(NoSnapshot))
      else if nextSeq == U32_MAX then (this, Err(SequenceExhausted))
      else
        var sequence := nextSeq + 1;
        if !ledger.Accepts(sequence)
          then (this, Err(OrderSequence(Orders.OrderSequence(sequence, ledger.lastSeq.value))))
        else
          var seen := current.value.tick;
          (this.(ledger := ledger.Record(sequence, issued, facts.ends), confirmed := confirmed.Record(sequence, seen),
                 waits := WaitsGiven(sequence, issued, current.value, facts), nextSeq := sequence),
           Ok(Outgoing(sequence, issued, seen)))
    }

    /** The standing orders a fresh connection is given again: none for a hero that lies dead. */
    function GivenAgain(): seq<Orders.Issued>
      requires Valid()
    {
      if !Strict() || current == None then [] else Living(ledger.StandingOrders(), current.value.heroSeen)
    }

    /** Standing orders end nothing and start no wait; the facts read for them are the caller's all the same. */
    function GiveAll(orders: seq<Orders.Issued>, facts: Facts): (r: (State, Result<seq<Outgoing>, SessionError>))
      requires Valid()
      ensures r.0.Valid()
      decreases |orders|
    {
      if orders == [] then (this, Ok([]))
      else
        var (given, before) := GiveAll(orders[..|orders| - 1], facts);
        if before.Err? then (given, before)
        else
          var (s, out) := given.Give(orders[|orders| - 1], facts);
          (s, if out.Ok? then Ok(before.value + [out.value]) else Err(out.error))
    }

    function Resume(facts: Facts): (r: (State, Result<seq<Outgoing>, SessionError>))
      requires Valid()
      ensures r.0.Valid()
    {
      this.(stream := QUIET).GiveAll(GivenAgain(), facts)
    }

    function Bind(player: nat): (s: State)
      requires Valid()
      ensures s.Valid()
    {
      if confirmed.connection == Some(player) then this
      else this.(confirmed := confirmed.Bind(player), waits := waits.(swaps := Readiness.NoWaits().swaps))
    }
  }

  function Living(orders: seq<Orders.Issued>, heroSeen: bool): seq<Orders.Issued> {
    if orders == [] then []
    else
      var last := orders[|orders| - 1];
      Living(orders[..|orders| - 1], heroSeen) +
      if !heroSeen && last.unit == None && last.order.NeedsBody() then [] else [last]
  }

  function Opening(terms: Terms, policy: AckPolicy, owner: Option<u8>): State {
    State(terms, policy, owner, Confirming.UNBOUND, None, None, Orders.NO_ORDERS, Readiness.NoWaits(), 0, QUIET)
  }

  // ---------- the session as it is kept ----------

  class ClientSession {
    const terms: Terms
    const policy: AckPolicy
    const owner: Option<u8>
    const ledger: Orders.OrderLedger
    const waits: Readiness.LocalWaits
    const confirmations: Confirming.Confirmations
    var current: Option<View>
    var lastEvent: Option<u32>
    var nextSeq: u32
    var stream: Stream

    ghost function Now(): State reads this, ledger, waits, confirmations {
      State(terms, policy, owner, confirmations.Now(), current, lastEvent, ledger.Now(), waits.Now(), nextSeq, stream)
    }

    constructor (terms: Terms, policy: AckPolicy, owner: Option<u8>)
      ensures Now() == Opening(terms, policy, owner) && Now().Valid() && fresh(ledger) && fresh(waits) &&
              fresh(confirmations)
    {
      this.terms := terms;
      this.policy := policy;
      this.owner := owner;
      this.ledger := new Orders.OrderLedger();
      this.waits := new Readiness.LocalWaits();
      this.confirmations := new Confirming.Confirmations();
      current := None;
      lastEvent := None;
      nextSeq := 0;
      stream := QUIET;
    }

    method CountMessage(msg: Message) returns (tooMany: bool)
      modifies this`stream
      ensures Now() == old(Now()).Counted(msg) && tooMany == old(Now()).TooMany(msg)
    {
      if owner == None || msg.Free() {
        return false;
      }
      if msg.Snapshot? {
        stream := stream.(withoutSnapshot := 0);
        return false;
      }
      stream := stream.(withoutSnapshot := stream.withoutSnapshot + 1);
      return stream.withoutSnapshot > MAX_MESSAGES_WITHOUT_SNAPSHOT;
    }

    /** Its precondition is what the program asserts on entry. */
    method RecordEvents(tick: u32)
      requires Above(tick, lastEvent)
      modifies this`lastEvent
      ensures lastEvent == Some(tick)
    {
      lastEvent := Some(tick);
    }

    method SettleStream(tick: u32) returns (ack: Option<u32>)
      modifies this`stream
      ensures stream == old(Now()).Settled(tick) && ack == old(Now()).AckNow(tick)
    {
      stream := stream.(pending := if owner.Some? then Some(tick) else None);
      if owner == None || !terms.lockstep {
        return None;
      }
      match policy {
        case AfterTurn =>
          stream := stream.(unacked := Some(tick));
          return None;
        case OnSnapshot => return Some(tick);
        case Never => return None;
      }
    }

    method IngestSnapshot(view: View) returns (r: Result<Told, SessionError>)
      requires Now().Valid()
      modifies this, ledger, waits, confirmations
      ensures Now().Valid()
      ensures old(Now()).SnapshotError(view).Some? ==>
              Now() == old(Now()) && r == Err(old(Now()).SnapshotError(view).value)
      ensures old(Now()).SnapshotError(view) == None ==>
                Now() == old(Now()).Fold(view) &&
                r == Ok(Folded(view.tick, view.skipped, old(Now()).BodyChanges(view), old(Now()).AckNow(view.tick)))
    {
      hide Readiness.Waits.Synchronize, Readiness.Waits.Valid, SkipsFit;
      ghost var was := Now();
      var error := if owner.Some? && stream.pending.Some? then Some(SnapshotBeforeEvents) else Unfit(view);
      if error.Some? {
        return Err(error.value);
      }
      RecordSkipped(view);
      var bodyBefore := if current.Some? then current.value.body else None;
      current := Some(view);
      var changed := owner.Some? && bodyBefore != view.body;
      if changed {
        ledger.Clear(None);
      }
      confirmations.Snapshot(if owner.Some? then view.settled else None, view.tick);
      waits.Synchronize(view.tick, ContextOf(view.bag, confirmations.through));
      var ack := SettleStream(view.tick);
      return Ok(Folded(view.tick, view.skipped, changed, ack));
    }

    function Unfit(view: View): Option<SessionError> reads this {
      var seen := if current.Some? then Some(current.value.tick) else None;
      if !Above(view.tick, seen) then Some(SnapshotTick(view.tick, seen.value))
      else if !SkipsFit(view, seen, lastEvent) then Some(SkippedTicks(view.tick))
      else if !view.sound then Some(Unsound)
      else None
    }

    method RecordSkipped(view: View)
      requires SkipsFit(view, if current.Some? then Some(current.value.tick) else None, lastEvent)
      modifies this`lastEvent
      ensures lastEvent == if view.skipped == [] then old(lastEvent) else LastOf(view.skipped)
    {
      for i := 0 to |view.skipped|
        invariant lastEvent == if i == 0 then old(lastEvent) else Some(view.skipped[i - 1])
      {
        RecordEvents(view.skipped[i]);
      }
    }

    method IngestEvents(tick: u32, sound: bool) returns (r: Result<Told, SessionError>)
      modifies this`lastEvent, this`stream
      ensures old(Now()).EventsError(tick, sound).Some? ==>
              Now() == old(Now()) && r == Err(old(Now()).EventsError(tick, sound).value)
      ensures old(Now()).EventsError(tick, sound) == None ==>
                Now() == old(Now()).(lastEvent := Some(tick), stream := old(stream).(pending := None)) &&
                  r == Ok(Complete(tick))
    {
      if !sound {
        return Err(Unsound);
      }
      if !Above(tick, lastEvent) {
        return Err(EventTickNotIncreasing(tick, lastEvent.value));
      }
      if owner.Some? && stream.pending != Some(tick) {
        return Err(EventsWithoutSnapshot);
      }
      RecordEvents(tick);
      stream := stream.(pending := None);
      return Ok(Complete(tick));
    }

    method Ingest(msg: Message) returns (r: Result<Told, SessionError>)
      requires Now().Valid()
      modifies this, ledger, waits, confirmations
      ensures Now().Valid() && Now() == old(Now()).Take(msg).0 && r == old(Now()).Take(msg).1
    {
      hide Readiness.Waits.Synchronize, Readiness.Waits.Valid, Readiness.Waits.Reject, State.SnapshotError,
        State.EventsError, State.Fold;
      CountedChecks(Now(), msg);
      var tooMany := CountMessage(msg);
      if tooMany {
        return Err(TooManyMessages);
      }
      match msg {
        case Snapshot(view) =>
          r := IngestSnapshot(view);
        case Events(tick, sound) =>
          r := IngestEvents(tick, sound);
        case OrderRejected(sequence) =>
          var _ := ledger.Reject(sequence);
          var _ := waits.Reject(sequence);
          r := Ok(Rejected(sequence));
        case MatchOver => r := if owner.Some? && stream.pending.Some? then Err(OverBeforeEvents) else Ok(Over);
        case MatchStart(_) => r := Err(RepeatedMatchStart);
        case Scenery(_, _) => r := Err(SceneryAfterStart);
        case WireMismatch => r := Err(WireDiffers);
        case Refused => r := Err(TurnedAway);
        case Compressed => r := Err(Unpacked);
        case LobbyState(sound) => r := if sound then Ok(Passed(true)) else Err(Unsound);
        case Heard(fits) => r := Ok(if fits then Passed(false) else Unheard);
        case _ => r := Ok(Passed(!msg.Free()));
      }
    }

    method Issue(issued: Orders.Issued, facts: Facts) returns (r: Result<Outgoing, SessionError>)
      requires Now().Valid()
      modifies this, ledger, waits, confirmations
      ensures Now().Valid() && Now() == old(Now()).Give(issued, facts).0 && r == old(Now()).Give(issued, facts).1
    {
      hide Readiness.Waits.Start, Readiness.Waits.StartMutes, Readiness.Waits.Valid;
      if current == None {
        return Err(NoSnapshot);
      }
      if nextSeq == U32_MAX {
        return Err(SequenceExhausted);
      }
      var seen, sequence := current.value.tick, nextSeq + 1;
      var refused := ledger.Record(sequence, issued, facts.ends);
      if refused.Some? {
        return Err(OrderSequence(refused.value));
      }
      confirmations.Record(sequence, seen);
      var body := WaitStartedBy(issued, facts.sharesWait);
      if !issued.Waits() && body.Some? {
        waits.Start(body.value, sequence, seen);
      }
      waits.StartMutes(facts.cat, sequence, SwapOf(issued), seen, facts.lands,
                       ContextOf(current.value.bag, confirmations.through));
      nextSeq := sequence;
      return Ok(Outgoing(sequence, issued, seen));
    }

    method EndTurn() returns (ack: Option<u32>)
      modifies this`stream
      ensures ack == old(stream).unacked && stream == old(stream).(unacked := None)
    {
      ack := stream.unacked;
      stream := stream.(unacked := None);
    }

    method Resume(facts: Facts) returns (r: Result<seq<Outgoing>, SessionError>)
      requires Now().Valid()
      modifies this, ledger, waits, confirmations
      ensures Now().Valid() && Now() == old(Now()).Resume(facts).0 && r == old(Now()).Resume(facts).1
    {
      hide State.Give, Readiness.Waits.Valid;
      stream := QUIET;
      if owner == None || current == None {
        return Ok([]);
      }
      ghost var quiet := Now();
      var orders := Living(GivenAgain(), current.value.heroSeen);
      assert orders == old(Now()).GivenAgain();
      var sent: seq<Outgoing> := [];
      for i := 0 to |orders|
        invariant Now().Valid() && quiet.GiveAll(orders[..i], facts) == (Now(), Ok(sent))
      {
        assert orders[..i + 1][..i] == orders[..i];
        var out := Issue(orders[i], facts);
        if out.Err? {
          assert quiet.GiveAll(orders[..i + 1], facts) == (Now(), Err(out.error));
          FailedEarly(quiet, orders, i + 1, facts);
          return Err(out.error);
        }
        sent := sent + [out.value];
      }
      assert orders[..|orders|] == orders;
      return Ok(sent);
    }

    function GivenAgain(): seq<Orders.Issued>
      requires |ledger.bodies| == 2
      reads this, ledger
    {
      Orders.GivenAgain(ledger.bodies[0]) + Orders.GivenAgain(ledger.bodies[1])
    }

    method BindConnection(player: nat)
      requires Now().Valid()
      modifies confirmations, waits
      ensures Now().Valid() && Now() == old(Now()).Bind(player)
    {
      var anew := confirmations.Bind(player);
      if anew {
        waits.ClearSwapPredictions();
      }
    }
  }

  /** Counting a message leaves what snapshots and events are checked against. */
  lemma CountedChecks(s: State, msg: Message)
    ensures var c := s.Counted(msg);
            (forall view: View ::
              c.SnapshotError(view) == s.SnapshotError(view) && c.BodyChanges(view) == s.BodyChanges(view)) &&
            (forall tick: u32, sound: bool :: c.EventsError(tick, sound) == s.EventsError(tick, sound)) &&
            forall tick: u32 :: c.AckNow(tick) == s.AckNow(tick)
  {
  }

  /** Once an order cannot be given, none after it is. */
  lemma {:induction false} FailedEarly(s: State, orders: seq<Orders.Issued>, n: nat, facts: Facts)
    requires s.Valid() && n <= |orders| && s.GiveAll(orders[..n], facts).1.Err?
    ensures s.GiveAll(orders, facts) == s.GiveAll(orders[..n], facts)
    decreases |orders| - n
  {
    if n == |orders| {
      assert orders[..n] == orders;
    } else {
      assert orders[..n + 1][..n] == orders[..n];
      FailedEarly(s, orders, n + 1, facts);
    }
  }
}
