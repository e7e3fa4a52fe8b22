/** What holds over every run of a seat, from its first message to the end of the match. */
module SeatRuns {
  import opened Machine
  import opened Session
  import opened Seat
  import opened SessionRuns
  import opened SessionOrders
  import Orders
  import Readiness

  /** A message of the server's, an order of the client's, or the end of its turn. */
  datatype Input = Arrived(msg: Message, facts: Facts) | Ordered(issued: Orders.Issued, facts: Facts) | Decided

  /** One step and what it told; nothing where it broke the stream off. Before the match there is
      no session to order on. */
  function NextSeat(s: SeatState, input: Input): (r: (SeatState, Option<Told>))
    requires s.Valid()
    ensures r.0.Valid()
  {
    match input
    case Arrived(msg, facts) =>
      var (t, r) := s.Ingest(msg, facts);
      (t, if r.Ok? then Some(r.value) else None)
    case Ordered(issued, facts) =>
      if s.session == None then (s, Some(NotGiven(NoSnapshot)))
      else
        var (t, told) := Next(s.session.value, Gave(issued, facts));
        (s.(session := Some(t)), told)
    case Decided =>
      if s.session == None then (s, Some(TurnEnded(None)))
      else
        var (t, told) := Next(s.session.value, TurnOver);
        (s.(session := Some(t)), told)
  }

  /** What of an input reaches the session once the match has started. */
  function ReachesAs(s: SeatState, input: Input): Op {
    match input
    case Arrived(msg, facts) =>
      if msg.Welcome? then Bound(msg.player) else if msg.MatchStart? && s.resuming then Restarted(facts) else Taken(msg)
    case Ordered(issued, facts) => Gave(issued, facts)
    case Decided => TurnOver
  }

  /** Where a run of inputs comes to, all it told, and what of it reached the session. */
  datatype SeatRun = SeatRun(seat: SeatState, told: seq<Told>, whole: bool, ops: seq<Op>)

  function SeatAfter(s: SeatState, inputs: seq<Input>): (r: SeatRun)
    requires s.Valid()
    ensures r.seat.Valid()
  {
    if inputs == [] then SeatRun(s, [], true, [])
    else
      var before := SeatAfter(s, inputs[..|inputs| - 1]);
      if !before.whole then before
      else
        var input := inputs[|inputs| - 1];
        var (t, told) := NextSeat(before.seat, input);
        if told == None then SeatRun(t, before.told, false, before.ops)
        else SeatRun(t, before.told + [told.value], true,
                     if before.seat.session.Some? then before.ops + [ReachesAs(before.seat, input)] else OpeningOps(t))
  }

  /** The start binds a seat's session to its connection. */
  function OpeningOps(s: SeatState): seq<Op> {
    if s.session.Some? && s.seated.Some? then [Bound(s.seated.value.player)] else []
  }

  predicate HasStarted(told: seq<Told>) { exists i :: 0 <= i < |told| && told[i] == Started }

  /** What the session told since the match started. */
  function Since(told: seq<Told>, owner: Option<u8>): seq<Told> {
    if told == [] then []
    else
      var last := told[|told| - 1];
      if last.Started? then (if owner.Some? then [Welcomed(owner)] else [])
        else Since(told[..|told| - 1], owner) + [last]
  }

  /** Whether a welcome since the start still waits for its match start. */
  function Greeted(told: seq<Told>): bool {
    if told == [] then false
    else
      match told[|told| - 1]
      case Started => false
      case Resumed(_) => false
      case Welcomed(_) => HasStarted(told)
      case _ => Greeted(told[..|told| - 1])
  }

  /** Since the start every welcome is to the session's own seat, and every restart uses one up. */
  ghost predicate Consented(told: seq<Told>, owner: Option<u8>) {
    told == [] ||
    (var before := told[..|told| - 1];
     Consented(before, owner) &&
     (HasStarted(before) ==>
       match told[|told| - 1]
       case Welcomed(slot) => slot == owner
       case Resumed(_) => Greeted(before)
       case Started => false
       case _ => true))
  }

  // ---------- the session of a seat ----------

  /** The session is what the operations that reached it make of the one the match start opened. */
  ghost predicate Linked(r: SeatRun) {
    (HasStarted(r.told) <==> r.seat.session.Some?) &&
    match r.seat.session
    case None => r.ops == [] && !r.seat.resuming
    case Some(s) =>
      s.policy == r.seat.policy && After(Opening(s.terms, s.policy, s.owner), r.ops) ==
        Run(s, Since(r.told, s.owner), true) &&
      r.seat.resuming == Greeted(r.told) && Consented(r.told, s.owner)
  }

  lemma ToldSnoc(told: seq<Told>, last: Told)
    ensures (told + [last])[..|told|] == told && HasStarted(told + [last]) == (HasStarted(told) || last == Started)
  {
    if HasStarted(told) {
      var i :| 0 <= i < |told| && told[i] == Started;
      assert (told + [last])[i] == Started;
    }
    if last == Started {
      assert (told + [last])[|told|] == Started;
    }
  }

  lemma {:induction false} NotYetConsented(told: seq<Told>, owner: Option<u8>)
    requires !HasStarted(told)
    ensures Consented(told, owner)
  {
    if told != [] {
      var before := told[..|told| - 1];
      assert told == before + [told[|told| - 1]];
      ToldSnoc(before, told[|told| - 1]);
      NotYetConsented(before, owner);
    }
  }

  lemma OpenedTerms(s: SeatState, terms: Terms)
    ensures s.Opened(terms).terms == terms
  {
  }

  lemma LobbyTells(s: SeatState, input: Input)
    requires s.Valid() && s.session == None && NextSeat(s, input).1.Some?
    ensures var (t, told) := NextSeat(s, input);
            t.policy == s.policy && t.resuming == s.resuming && (told.value == Started <==> t.session.Some?) &&
            (t.session.Some? ==> t.seated == s.seated && t.session == Some(s.Opened(t.session.value.terms)))
  {
    if input.Arrived? && input.msg.MatchStart? {
      OpenedTerms(s, input.msg.info.terms);
    }
    hide State.Bind;
  }

  lemma OpenedRun(s: SeatState, terms: Terms)
    ensures var opening := Opening(terms, s.policy, if s.seated.Some? then Some(s.seated.value.slot) else None);
            var t := s.Opened(terms);
            t.terms == terms && t.policy == s.policy && t.owner == opening.owner &&
            After(opening, if s.seated.Some? then [Bound(s.seated.value.player)] else []) ==
            Run(t, if s.seated.Some? then [Welcomed(t.owner)] else [], true)
  {
    hide State.Take, State.Give, State.Resume;
    if s.seated.Some? {
      var opening := Opening(terms, s.policy, Some(s.seated.value.slot));
      assert After(opening, []) == Run(opening, [], true);
      assert [] + [Bound(s.seated.value.player)] == [Bound(s.seated.value.player)];
      AfterSnoc(opening, [], Bound(s.seated.value.player));
    }
  }

  lemma StartLinks(r: SeatRun, input: Input)
    requires r.seat.Valid() && r.whole && r.seat.session == None && Linked(r) && NextSeat(r.seat, input).1.Some?
    ensures var (t, told) := NextSeat(r.seat, input);
            Linked(SeatRun(t, r.told + [told.value], true, OpeningOps(t)))
  {
    var (t, told) := NextSeat(r.seat, input);
    LobbyTells(r.seat, input);
    ToldSnoc(r.told, told.value);
    hide NextSeat, SeatState.Opened, HasStarted;
    if t.session.Some? {
      OpenedRun(r.seat, t.session.value.terms);
      NotYetConsented(r.told, t.session.value.owner);
    }
  }

  /** An input after the start does to the session what it reaches it as, and tells the same. */
  lemma MatchTells(s: SeatState, input: Input)
    requires s.Valid() && s.session.Some? && NextSeat(s, input).1.Some?
    ensures var (t, told) := NextSeat(s, input);
            t.session.Some? && t.policy == s.policy &&
              Next(s.session.value, ReachesAs(s, input)) == (t.session.value, told)
    ensures var (t, told) := NextSeat(s, input);
            told.value != Started &&
            t.resuming == (if told.value.Welcomed? then true else if told.value.Resumed? then false else s.resuming) &&
            (told.value.Welcomed? ==> told.value.welcomed == s.session.value.owner) &&
              (told.value.Resumed? ==> s.resuming)
  {
    match input
    case Arrived(msg, facts) =>
      if !msg.Welcome? && !(msg.MatchStart? && s.resuming) {
        TakeTells(s.session.value, msg);
      }
      hide State.Take, State.Resume, State.Bind;
    case Ordered(issued, facts) =>
      hide State.Give;
    case Decided =>
  }

  lemma TakeTells(s: State, msg: Message)
    requires s.Valid() && s.Take(msg).1.Ok?
    ensures var told := s.Take(msg).1.value; !told.Started? && !told.Welcomed? && !told.Resumed?
  {
    hide Readiness.Waits.Synchronize, Readiness.Waits.Reject, Orders.Ledger.Reject, Orders.Ledger.Clear,
      Readiness.Waits.Valid;
  }

  lemma StepReads(s: State, op: Op)
    requires s.Valid() && Next(s, op).1.Some?
    ensures var t := Next(s, op).0; t.terms == s.terms && t.policy == s.policy && t.owner == s.owner
  {
    StepMoves(s, op);
    hide Next;
  }

  lemma {:induction false} AfterSnoc(s: State, ops: seq<Op>, op: Op)
    requires s.Valid() && After(s, ops).whole && Next(After(s, ops).state, op).1.Some?
    ensures var before := After(s, ops);
            var (t, told) := Next(before.state, op);
            After(s, ops + [op]) == Run(t, before.trace + [told.value], true)
  {
    hide Next;
    assert (ops + [op])[..|ops|] == ops;
  }

  /** What a step after the start adds to the trace. */
  lemma TraceGrows(told: seq<Told>, last: Told, owner: Option<u8>)
    requires HasStarted(told) && last != Started && Consented(told, owner)
    requires last.Welcomed? ==> last.welcomed == owner
    requires last.Resumed? ==> Greeted(told)
    ensures HasStarted(told + [last]) && Since(told + [last], owner) == Since(told, owner) + [last]
    ensures Greeted(told + [last]) == (if last.Welcomed? then true else if last.Resumed? then false else Greeted(told))
    ensures Consented(told + [last], owner)
  {
    ToldSnoc(told, last);
    hide HasStarted;
  }

  lemma MatchLinks(r: SeatRun, input: Input)
    requires r.seat.Valid() && r.whole && r.seat.session.Some? && Linked(r) && NextSeat(r.seat, input).1.Some?
    ensures var (t, told) := NextSeat(r.seat, input);
            Linked(SeatRun(t, r.told + [told.value], true, r.ops + [ReachesAs(r.seat, input)]))
  {
    hide NextSeat, Next, After, ReachesAs, HasStarted, Since, Greeted, Consented;
    var (t, told) := NextSeat(r.seat, input);
    var s, op := r.seat.session.value, ReachesAs(r.seat, input);
    MatchTells(r.seat, input);
    StepReads(s, op);
    AfterSnoc(Opening(s.terms, s.policy, s.owner), r.ops, op);
    TraceGrows(r.told, told.value, s.owner);
  }

  lemma {:induction false} RunsLink(seated: Option<Seated>, policy: AckPolicy, inputs: seq<Input>)
    requires SeatAfter(Joining(seated, policy), inputs).whole
    ensures Linked(SeatAfter(Joining(seated, policy), inputs))
  {
    if inputs != [] {
      var before := SeatAfter(Joining(seated, policy), inputs[..|inputs| - 1]);
      RunsLink(seated, policy, inputs[..|inputs| - 1]);
      hide Linked, NextSeat;
      if before.seat.session.Some? {
        MatchLinks(before, inputs[|inputs| - 1]);
      } else {
        StartLinks(before, inputs[|inputs| - 1]);
      }
    }
  }

  /** Over every run of a seat, on however many connections: what its session told since the start
      keeps the order of snapshots and events, rising ticks, single acknowledgements, bounded
      silence and unbroken numbers; every welcome is to the same seat, and every restart uses up
      a welcome. */
  lemma EverySeatRun(seated: Option<Seated>, policy: AckPolicy, inputs: seq<Input>)
    requires var r := SeatAfter(Joining(seated, policy), inputs); r.whole && r.seat.session.Some?
    ensures var r := SeatAfter(Joining(seated, policy), inputs);
            var s := r.seat.session.value;
            var told := Since(r.told, s.owner);
            InOrder(Read(s), told) && TicksRise(Read(s), told) && AcksOnce(Read(s), told) && Bounded(Read(s), told) &&
            OrdersInv(s) && |Numbers(told)| == s.nextSeq && Follow(Numbers(told), 0) &&
            Consented(r.told, s.owner) && r.seat.resuming == Greeted(r.told)
  {
    RunsLink(seated, policy, inputs);
    var r := SeatAfter(Joining(seated, policy), inputs);
    var s := r.seat.session.value;
    hide SeatAfter, InOrder, TicksRise, AcksOnce, Bounded, OrdersInv, Follow, Consented, Greeted, HasStarted;
    EveryRun(s.terms, s.policy, s.owner, r.ops);
    NumberedInOrder(s.terms, s.policy, s.owner, r.ops);
  }

  // ---------- the opening ----------

  /** The lobby's counted messages stay within their bound, and the session opens on the scenery told. */
  ghost predicate Opens(s: SeatState) {
    s.beforeStart <= MAX_MESSAGES_BEFORE_MATCH_START && (s.sceneryOnConnection ==> s.scenery.Some?) &&
    (s.session.Some? && s.scenery.Some? ==> s.scenery.value == LandscapeOf(s.session.value.terms))
  }

  lemma SeatSteps(s: SeatState, input: Input)
    requires s.Valid() && Opens(s) && NextSeat(s, input).1.Some?
    ensures var t := NextSeat(s, input).0;
            Opens(t) && s.beforeStart <= t.beforeStart && (s.scenery.Some? ==> t.scenery == s.scenery) &&
            (s.session.Some? ==> t.session.Some? && t.session.value.terms == s.session.value.terms &&
                                 t.session.value.owner == s.session.value.owner && t.scenery == s.scenery)
  {
    if s.session.Some? {
      MatchTells(s, input);
      StepReads(s.session.value, ReachesAs(s, input));
      hide Next, ReachesAs, State.Take, State.Give, State.Resume, State.Bind;
    } else {
      hide State.Bind;
    }
  }

  lemma {:induction false} RunsOpen(s: SeatState, inputs: seq<Input>)
    requires s.Valid() && Opens(s) && SeatAfter(s, inputs).whole
    ensures var t := SeatAfter(s, inputs).seat;
            Opens(t) && s.beforeStart <= t.beforeStart && (s.scenery.Some? ==> t.scenery == s.scenery) &&
            (s.session.Some? ==> t.session.Some? && t.session.value.terms == s.session.value.terms &&
                                 t.session.value.owner == s.session.value.owner)
  {
    if inputs != [] {
      RunsOpen(s, inputs[..|inputs| - 1]);
      hide Opens, NextSeat;
      SeatSteps(SeatAfter(s, inputs[..|inputs| - 1]).seat, inputs[|inputs| - 1]);
    }
  }

  lemma {:induction false} RunJoins(s: SeatState, first: seq<Input>, rest: seq<Input>)
    requires s.Valid() && SeatAfter(s, first + rest).whole
    ensures SeatAfter(s, first).whole && SeatAfter(SeatAfter(s, first).seat, rest).whole
    ensures SeatAfter(SeatAfter(s, first).seat, rest).seat == SeatAfter(s, first + rest).seat
  {
    hide NextSeat;
    if rest == [] {
      assert first + rest == first;
    } else {
      assert (first + rest)[..|first + rest| - 1] == first + rest[..|rest| - 1];
      RunJoins(s, first, rest[..|rest| - 1]);
    }
  }

  /** Once it has started, a seat's match keeps its terms and its seat for good: across every
      restart, and a match start accepted later states the very same terms. */
  lemma MatchNeverChanges(seated: Option<Seated>, policy: AckPolicy, first: seq<Input>, rest: seq<Input>)
    requires SeatAfter(Joining(seated, policy), first + rest).whole
    requires SeatAfter(Joining(seated, policy), first).seat.session.Some?
    ensures var early, late := SeatAfter(Joining(seated, policy), first).seat,
            SeatAfter(Joining(seated, policy), first + rest).seat;
            late.session.Some? && late.session.value.terms == early.session.value.terms &&
              late.session.value.owner == early.session.value.owner
    ensures rest != [] && rest[|rest| - 1].Arrived? && rest[|rest| - 1].msg.MatchStart? ==>
              rest[|rest| - 1].msg.info ==
                MatchInfo(SeatAfter(Joining(seated, policy), first).seat.session.value.terms, true)
  {
    RunJoins(Joining(seated, policy), first, rest);
    RunsOpen(Joining(seated, policy), first);
    var early := SeatAfter(Joining(seated, policy), first).seat;
    RunsOpen(early, rest);
    if rest != [] && rest[|rest| - 1].Arrived? && rest[|rest| - 1].msg.MatchStart? {
      RunsOpen(early, rest[..|rest| - 1]);
      var before := SeatAfter(early, rest[..|rest| - 1]).seat;
      StartedAgain(before, rest[|rest| - 1].msg, rest[|rest| - 1].facts);
    }
  }

  lemma StartedAgain(s: SeatState, msg: Message, facts: Facts)
    requires s.Valid() && s.session.Some? && msg.MatchStart? && s.Ingest(msg, facts).1.Ok?
    ensures msg.info == MatchInfo(s.session.value.terms, true)
  {
    hide State.Resume;
  }

  /** Over every run the lobby's budget spans all its connections, and all scenery told agrees with
      itself and with the match that starts. */
  lemma LobbyAgrees(seated: Option<Seated>, policy: AckPolicy, first: seq<Input>, rest: seq<Input>, map_: u16,
      trees: seq<Vec2>, facts: Facts)
    requires first != [] && first[|first| - 1] == Arrived(Scenery(map_, trees), facts)
    requires SeatAfter(Joining(seated, policy), first + rest).whole
    ensures var late := SeatAfter(Joining(seated, policy), first + rest).seat;
            late.beforeStart <= MAX_MESSAGES_BEFORE_MATCH_START && late.scenery == Some((map_, trees)) &&
            (late.session.Some? ==> LandscapeOf(late.session.value.terms) == (map_, trees))
  {
    RunJoins(Joining(seated, policy), first, rest);
    var before := SeatAfter(Joining(seated, policy), first[..|first| - 1]).seat;
    RunsOpen(Joining(seated, policy), first);
    RunsOpen(Joining(seated, policy), first[..|first| - 1]);
    SceneryKept(before, map_, trees, facts);
    RunsOpen(SeatAfter(Joining(seated, policy), first).seat, rest);
  }

  lemma SceneryKept(s: SeatState, map_: u16, trees: seq<Vec2>, facts: Facts)
    requires s.Valid() && s.Ingest(Scenery(map_, trees), facts).1.Ok?
    ensures s.Ingest(Scenery(map_, trees), facts).0.scenery == Some((map_, trees))
  {
    hide State.Bind;
  }

  // ---------- between a welcome and its match start ----------

  /** The old stream may run on between a welcome and the match start due on it: any other message
      does what it would have done without the welcome, and the restart stays due. */
  lemma OldStreamRunsOn(s: SeatState, msg: Message, facts: Facts)
    requires s.Valid() && s.session.Some? && s.resuming && !msg.Welcome? && !msg.MatchStart?
    ensures var (t, r) := s.Ingest(msg, facts);
            (t.(resuming := false), r) == s.(resuming := false).Ingest(msg, facts) && t.resuming
    ensures msg.Ping? ==> s.Ingest(msg, facts).1.Ok?
  {
    hide State.Resume;
  }
}
