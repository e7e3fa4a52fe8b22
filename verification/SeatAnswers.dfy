/** What a seat answers, said of the inputs before: which messages it takes in the lobby and in the match. */
module SeatAnswers {
  import opened Machine
  import opened Session
  import opened Seat
  import opened SeatRuns
  import opened SessionRuns
  import opened SessionAnswers
  import opened SessionOrders
  import Orders
  import Readiness

  // ---------- the lobby ----------

  /** The messages counted against the lobby's bound. */
  function CountedBefore(inputs: seq<Input>): nat {
    if inputs == [] then 0
    else
      CountedBefore(inputs[..|inputs| - 1]) +
      match inputs[|inputs| - 1]
      case Arrived(msg, _) => if msg.Ping? || msg.SayRefused? || msg.Heard? then 0 else 1
      case _ => 0
  }

  /** The scenery told, on whatever connection. */
  function SceneryOf(inputs: seq<Input>): Option<Landscape> {
    if inputs == [] then None
    else
      var last := inputs[|inputs| - 1];
      if last.Arrived? && last.msg.Scenery? then Some((last.msg.map_, last.msg.trees))
      else SceneryOf(inputs[..|inputs| - 1])
  }

  /** Whether scenery was told since the last welcome. */
  predicate SceneryHere(inputs: seq<Input>) {
    inputs != [] &&
    var last := inputs[|inputs| - 1];
    if last.Arrived? && last.msg.Welcome? then false
    else (last.Arrived? && last.msg.Scenery?) || SceneryHere(inputs[..|inputs| - 1])
  }

  /** The seat as the last welcome to one assigned it. */
  function Assigned(seat: Seated, inputs: seq<Input>): Seated {
    if inputs == [] then seat
    else
      var last := inputs[|inputs| - 1];
      if last.Arrived? && last.msg.Welcome? && last.msg.slot.Some?
        then Seated(last.msg.player, last.msg.slot.value, seat.tickRate, seat.lockstep, seat.hero)
      else Assigned(seat, inputs[..|inputs| - 1])
  }

  /** None where no seat was asked for. */
  function SeatedBy(seated: Option<Seated>, inputs: seq<Input>): Option<Seated> {
    if seated == None then None else Some(Assigned(seated.value, inputs))
  }

  /** A match start agrees with the scenery told, and with what the seat was promised. */
  ghost predicate StartFits(seated: Option<Seated>, scenery: Option<Landscape>, info: MatchInfo) {
    info.sound && (scenery.Some? ==> scenery.value == (info.terms.map_, info.terms.trees)) &&
    (seated.Some? ==>
       Promised(seated.value, info.terms) && info.terms.roster[seated.value.slot].playable)
  }

  /** The messages a lobby takes. */
  ghost predicate LobbyTakes(seated: Option<Seated>, inputs: seq<Input>, msg: Message) {
    var room := CountedBefore(inputs) < MAX_MESSAGES_BEFORE_MATCH_START;
    match msg
    case Ping => true
    case SayRefused => true
    case Heard(_) => true
    case MatchStart(info) => room && StartFits(SeatedBy(seated, inputs), SceneryOf(inputs), info)
    case Scenery(map_, trees) =>
      room && !SceneryHere(inputs) && (SceneryOf(inputs).Some? ==> SceneryOf(inputs).value == (map_, trees))
    case LobbyState(sound) => room && sound
    case Welcome(_, _) => room
    case Echo => room
    case OrderReceived => room
    case OrdersTold => room
    case ParticipantLeft => room
    case _ => false
  }

  /** What a message taken in the lobby tells. */
  ghost predicate LobbyTells(msg: Message, told: Told) {
    match msg
    case Ping => told == Passed(false)
    case SayRefused => told == Passed(false)
    case Heard(fits) => told == if fits then Passed(false) else Unheard
    case MatchStart(_) => told == Started
    case Welcome(_, slot) => told == Welcomed(slot)
    case _ => told == Passed(true)
  }

  /** What a lobby's refusal says is so. */
  ghost predicate LobbyFault(seated: Option<Seated>, inputs: seq<Input>, msg: Message, error: SessionError) {
    match error
    case TooManyMessages => CountedBefore(inputs) >= MAX_MESSAGES_BEFORE_MATCH_START
    case BeforeMatchStart => msg.Snapshot? || msg.Events? || msg.OrderRejected? || msg.MatchOver?
    case WireDiffers => msg.WireMismatch?
    case TurnedAway => msg.Refused?
    case Unpacked => msg.Compressed?
    case SceneryTwice => msg.Scenery? && SceneryHere(inputs)
    case OtherScenery =>
      SceneryOf(inputs).Some? &&
      ((msg.Scenery? && SceneryOf(inputs).value != (msg.map_, msg.trees)) ||
       (msg.MatchStart? && SceneryOf(inputs).value != (msg.info.terms.map_, msg.info.terms.trees)))
    case StartMismatch => msg.MatchStart? && seated.Some? && !Promised(Assigned(seated.value, inputs), msg.info.terms)
    case Unplayable =>
      msg.MatchStart? && seated.Some? && Promised(Assigned(seated.value, inputs), msg.info.terms) &&
      !msg.info.terms.roster[Assigned(seated.value, inputs).slot].playable
    case Unsound => (msg.LobbyState? && !msg.sound) || (msg.MatchStart? && !msg.info.sound)
    case _ => false
  }

  /** A match is what the seat was promised: its pace, a place in it, and the hero picked on joining. */
  ghost predicate Promised(seat: Seated, terms: Terms) {
    terms.tickRate == seat.tickRate && terms.lockstep == seat.lockstep && seat.slot in terms.roster &&
    (seat.hero.Some? ==> terms.roster[seat.slot].hero == seat.hero.value)
  }

  lemma LobbyStep(s: SeatState, input: Input)
    requires s.Valid() && s.session == None && NextSeat(s, input).1.Some? && NextSeat(s, input).0.session == None
    ensures var t := NextSeat(s, input).0;
            var msg := if input.Arrived? then input.msg else Ping;
            t.beforeStart == s.beforeStart + (if msg.Ping? || msg.SayRefused? || msg.Heard? then 0 else 1) &&
            t.scenery == (if msg.Scenery? then Some((msg.map_, msg.trees)) else s.scenery) &&
            t.sceneryOnConnection == (if msg.Welcome? then false else msg.Scenery? || s.sceneryOnConnection) &&
            t.seated == (if msg.Welcome? && msg.slot.Some? && s.seated.Some?
                         then Some(Seated(msg.player, msg.slot.value, s.seated.value.tickRate, s.seated.value.lockstep,
                                          s.seated.value.hero))
                         else s.seated)
  {
    hide State.Bind;
  }

  /** What the seat was promised on joining is not a welcome's to change. */
  lemma {:induction false} SamePromise(seat: Seated, inputs: seq<Input>)
    ensures var seated := Assigned(seat, inputs);
            (seated.tickRate, seated.lockstep, seated.hero) == (seat.tickRate, seat.lockstep, seat.hero)
  {
    if inputs != [] {
      SamePromise(seat, inputs[..|inputs| - 1]);
    }
  }

  /** What a seat keeps in the lobby is what its inputs told. */
  lemma {:induction false} LobbyKeeps(seated: Option<Seated>, policy: AckPolicy, inputs: seq<Input>)
    requires var r := SeatAfter(Joining(seated, policy), inputs); r.whole && r.seat.session == None
    ensures var s := SeatAfter(Joining(seated, policy), inputs).seat;
            s.beforeStart == CountedBefore(inputs) && s.scenery == SceneryOf(inputs) &&
            s.sceneryOnConnection == SceneryHere(inputs) && s.seated == SeatedBy(seated, inputs)
  {
    hide NextSeat;
    if inputs != [] {
      var before := SeatAfter(Joining(seated, policy), inputs[..|inputs| - 1]);
      LobbyGoesOn(before.seat, inputs[|inputs| - 1]);
      LobbyKeeps(seated, policy, inputs[..|inputs| - 1]);
      LobbyStep(before.seat, inputs[|inputs| - 1]);
      if seated.Some? {
        SamePromise(seated.value, inputs[..|inputs| - 1]);
      }
      hide SeatAfter;
    }
  }

  /** A match once started stays started. */
  lemma LobbyGoesOn(s: SeatState, input: Input)
    requires s.Valid() && NextSeat(s, input).1.Some? && NextSeat(s, input).0.session == None
    ensures s.session == None
  {
    if s.session.Some? {
      MatchTells(s, input);
      assert false;
    }
  }

  lemma LobbyAnswers(s: SeatState, seated: Option<Seated>, inputs: seq<Input>, msg: Message)
    requires s.session == None && s.beforeStart == CountedBefore(inputs) && s.scenery == SceneryOf(inputs)
    requires s.sceneryOnConnection == SceneryHere(inputs) && s.seated == SeatedBy(seated, inputs)
    ensures s.Lobby(msg).1.Ok? <==> LobbyTakes(seated, inputs, msg)
    ensures s.Lobby(msg).1.Ok? ==> LobbyTells(msg, s.Lobby(msg).1.value)
    ensures s.Lobby(msg).1.Err? ==> LobbyFault(seated, inputs, msg, s.Lobby(msg).1.error)
  {
    hide CountedBefore, SceneryOf, SceneryHere, Assigned, State.Bind;
  }

  lemma StartOpens(s: SeatState, info: MatchInfo)
    requires s.session == None && s.Lobby(MatchStart(info)).1.Ok?
    ensures var t := s.Lobby(MatchStart(info)).0;
            s.Lobby(MatchStart(info)).1.value == Started && t.session.Some? && t.session.value.terms == info.terms &&
            t.session.value.policy == s.policy && t.session.value.current == None && t.session.value.nextSeq == 0 &&
            t.session.value.owner == (if s.seated == None then None else Some(s.seated.value.slot)) &&
            t.session.value.confirmed.connection == (if s.seated == None then None else Some(s.seated.value.player))
  {
  }

  /** A lobby takes exactly the messages its inputs leave room and sense for, and tells why it refuses
      another; the match start it takes opens the session of the seat last assigned, on its connection. */
  lemma LobbyTakesExactly(seated: Option<Seated>, policy: AckPolicy, inputs: seq<Input>, msg: Message, facts: Facts)
    requires var r := SeatAfter(Joining(seated, policy), inputs); r.whole && r.seat.session == None
    ensures var s := SeatAfter(Joining(seated, policy), inputs).seat;
            var (t, answer) := s.Ingest(msg, facts);
            var seat := SeatedBy(seated, inputs);
            (answer.Ok? <==> LobbyTakes(seated, inputs, msg)) &&
            (answer.Ok? ==> LobbyTells(msg, answer.value)) &&
            (answer.Err? ==> LobbyFault(seated, inputs, msg, answer.error)) &&
            (answer.Ok? && msg.MatchStart? ==>
               t.session.Some? && t.session.value.terms == msg.info.terms &&
               t.session.value.owner == (if seat == None then None else Some(seat.value.slot)) &&
               t.session.value.confirmed.connection == (if seat == None then None else Some(seat.value.player)))
  {
    LobbyKeeps(seated, policy, inputs);
    var s := SeatAfter(Joining(seated, policy), inputs).seat;
    LobbyAnswers(s, seated, inputs, msg);
    if msg.MatchStart? && s.Lobby(msg).1.Ok? {
      StartOpens(s, msg.info);
    }
    hide SeatAfter, SeatState.Lobby, LobbyTakes, LobbyTells, LobbyFault;
  }

  // ---------- the match ----------

  /** How many orders a restart gives again. */
  function GivenBack(s: State): nat
    requires |s.ledger.bodies| == 2
  {
    var told := s.owner.Some? && s.current.Some?;
    var (hero, courier) := (s.ledger.bodies[0], s.ledger.bodies[1]);
    (if told && s.current.value.heroSeen && hero.current.Some? && !hero.queued then 1 else 0) +
      if told && courier.current.Some? && !courier.queued then 1 else 0
  }

  lemma {:induction false} GivesUntilSpent(s: State, orders: seq<Orders.Issued>, facts: Facts)
    requires OrdersInv(s) && (orders != [] ==> s.current.Some?)
    ensures s.GiveAll(orders, facts).1.Ok? <==> s.nextSeq + |orders| <= U32_MAX
  {
    if orders != [] {
      var rest := orders[..|orders| - 1];
      GivesUntilSpent(s, rest, facts);
      GiveAllKeeps(s, rest, facts);
      GiveAllReads(s, rest, facts);
      GivenInSequence(s.GiveAll(rest, facts).0, orders[|orders| - 1], facts);
      hide OrdersInv, State.Give;
    }
  }

  /** A restart fails only for want of numbers. */
  lemma RestartUntilSpent(s: State, facts: Facts)
    requires OrdersInv(s)
    ensures s.Valid() && (s.Resume(facts).1.Ok? <==> s.nextSeq + GivenBack(s) <= U32_MAX)
  {
    GivenAgainSpelled(s);
    var quiet := s.(stream := QUIET);
    assert OrdersInv(quiet) by {
      hide Readiness.Below, Orders.Inv, Readiness.Waits.Valid;
    }
    hide OrdersInv, Readiness.Waits.Valid;
    GivesUntilSpent(quiet, s.GivenAgain(), facts);
  }

  lemma MatchAnswers(s: SeatState, msg: Message, facts: Facts)
    requires s.Valid() && s.session.Some?
    ensures var (t, answer) := s.Ingest(msg, facts);
            var session := s.session.value;
            if msg.Welcome?
            then if msg.slot == session.owner
                 then answer == Ok(Welcomed(msg.slot)) && t.resuming && t.session == Some(session.Bind(msg.player)) &&
                      t.seated.Some? == s.seated.Some? && (t.seated.Some? ==> t.seated.value.player == msg.player)
                 else answer == Err(OtherSeat) && t == s
            else if msg.MatchStart? && s.resuming
            then if !msg.info.sound then answer == Err(Unsound) && t == s
                 else if msg.info.terms != session.terms then answer == Err(OtherMatch) && t == s
                 else !t.resuming && t.session == Some(session.Resume(facts).0) &&
                      (answer.Ok? <==> session.Resume(facts).1.Ok?) &&
                      (answer.Ok? ==> answer.value == Resumed(session.Resume(facts).1.value))
            else t.resuming == s.resuming && t.session == Some(session.Take(msg).0) && answer == session.Take(msg).1
  {
    hide State.Take, State.Resume, State.Bind;
  }

  /** The messages a seat's match takes: a welcome to its own seat, once welcomed the very start it
      began with while numbers for the orders given again last, and what continues its stream. */
  ghost predicate MatchTakes(s: State, told: seq<Told>, msg: Message)
    requires |s.ledger.bodies| == 2
  {
    match msg
    case Welcome(_, slot) => slot == s.owner
    case MatchStart(info) =>
      Greeted(told) && info.sound && info.terms == s.terms && s.nextSeq + GivenBack(s) <= U32_MAX
    case _ => Continues(s.owner, Since(told, s.owner), msg)
  }

  lemma MatchTakesWhen(seat: SeatState, told: seq<Told>, msg: Message, facts: Facts)
    requires seat.Valid() && seat.session.Some? && OrdersInv(seat.session.value) && seat.resuming == Greeted(told)
    requires var s := seat.session.value; s.Take(msg).1.Ok? <==> Continues(s.owner, Since(told, s.owner), msg)
    ensures seat.Ingest(msg, facts).1.Ok? <==> MatchTakes(seat.session.value, told, msg)
  {
    MatchAnswers(seat, msg, facts);
    RestartUntilSpent(seat.session.value, facts);
    hide SeatState.Ingest, State.Take, State.Resume, State.Bind, OrdersInv, GivenBack, Greeted, Since, Room, Open,
      Above, LastOf, SnapshotTicks, EventTicks, Readiness.Waits.Valid;
  }

  /** What a started seat's session is, after every run. */
  lemma SessionOfRun(seated: Option<Seated>, policy: AckPolicy, inputs: seq<Input>, msg: Message)
    requires var r := SeatAfter(Joining(seated, policy), inputs); r.whole && r.seat.session.Some?
    ensures var r := SeatAfter(Joining(seated, policy), inputs);
            var s := r.seat.session.value;
            OrdersInv(s) && r.seat.resuming == Greeted(r.told) &&
            (s.Take(msg).1.Ok? <==> Continues(s.owner, Since(r.told, s.owner), msg))
  {
    RunsLink(seated, policy, inputs);
    EverySeatRun(seated, policy, inputs);
    var r := SeatAfter(Joining(seated, policy), inputs);
    var s := r.seat.session.value;
    hide SeatAfter, InOrder, TicksRise, AcksOnce, Bounded, Follow, Consented, Greeted, HasStarted, Since, Continues,
      State.Take, OrdersInv, After, Tells, Faulty;
    AcceptsExactly(s.terms, s.policy, s.owner, r.ops, msg);
  }

  /** A started seat takes exactly those, after every run on however many connections. */
  lemma MatchTakesExactly(seated: Option<Seated>, policy: AckPolicy, inputs: seq<Input>, msg: Message, facts: Facts)
    requires var r := SeatAfter(Joining(seated, policy), inputs); r.whole && r.seat.session.Some?
    ensures var r := SeatAfter(Joining(seated, policy), inputs);
            r.seat.Valid() && (r.seat.Ingest(msg, facts).1.Ok? <==> MatchTakes(r.seat.session.value, r.told, msg))
  {
    hide SeatAfter, OrdersInv, Greeted, Since, Continues, SeatState.Ingest, State.Take, MatchTakes, State.Valid;
    SessionOfRun(seated, policy, inputs, msg);
    var r := SeatAfter(Joining(seated, policy), inputs);
    MatchTakesWhen(r.seat, r.told, msg, facts);
  }
}
