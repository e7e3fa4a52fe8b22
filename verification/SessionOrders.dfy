/** The orders a session gives: how they are numbered, refused, and given again. */
module SessionOrders {
  import opened Machine
  import opened Session
  import opened SessionRuns
  import Confirming
  import Orders
  import Readiness

  /** The ledger's last sequence is the last one given; every wait and every order awaited is of an
      order already given. */
  ghost predicate OrdersInv(s: State) {
    s.Valid() && Orders.Inv(s.ledger) && s.ledger.lastSeq == (if s.nextSeq == 0 then None else Some(s.nextSeq)) &&
    Readiness.Below(s.waits, s.nextSeq) && Confirming.Inv(s.confirmed, s.nextSeq)
  }

  /** An order is numbered next after the last, and refused only before the first snapshot or
      once the numbers run out: never as out of sequence. */
  lemma GivenInSequence(s: State, issued: Orders.Issued, facts: Facts)
    requires OrdersInv(s)
    ensures var (t, r) := s.Give(issued, facts);
            match r
            case Ok(out) =>
              s.current.Some? && s.nextSeq < U32_MAX && out.sequence == s.nextSeq + 1 == t.nextSeq &&
              out.issued == issued && out.seen == s.current.value.tick
            case Err(error) => t == s && error == (if s.current == None then NoSnapshot else SequenceExhausted) &&
                               (s.current == None || s.nextSeq == U32_MAX)
  {
    hide Readiness.Below, Orders.Inv, Confirming.Inv, Orders.Ledger.Record, State.WaitsGiven, Readiness.Waits.Valid;
  }

  lemma WaitsGivenBelow(s: State, issued: Orders.Issued, view: View, facts: Facts, sequence: u32)
    requires s.Valid() && Readiness.Below(s.waits, sequence)
    ensures Readiness.Below(s.WaitsGiven(sequence, issued, view, facts), sequence)
  {
    hide Readiness.Below, Readiness.Waits.Start, Readiness.Waits.StartMutes, Readiness.Waits.Valid;
    var body := WaitStartedBy(issued, facts.sharesWait);
    var started := if !issued.Waits() && body.Some? then s.waits.Start(body.value, sequence, view.tick) else s.waits;
    if body.Some? {
      Readiness.StartBelow(s.waits, body.value, sequence, view.tick, sequence);
    }
    Readiness.StartMutesBelow(facts.cat, started, sequence, SwapOf(issued), view.tick, facts.lands,
      ContextOf(view.bag, s.confirmed.through), sequence);
  }

  lemma MoreBelow(w: Readiness.Waits, issued: u32, more: u32)
    requires w.Valid() && Readiness.Below(w, issued) && issued <= more
    ensures Readiness.Below(w, more)
  {
  }

  lemma RecordSets(l: Orders.Ledger, sequence: u32, issued: Orders.Issued, ends: bool)
    requires |l.bodies| == 2 && l.Accepts(sequence)
    ensures l.Record(sequence, issued, ends).lastSeq == Some(sequence)
  {
  }

  /** What giving an order changes. */
  lemma GiveSets(s: State, issued: Orders.Issued, facts: Facts)
    requires OrdersInv(s)
    ensures s.Give(issued, facts).1.Err? ==> s.Give(issued, facts).0 == s
    ensures s.Give(issued, facts).1.Ok? ==>
              var sequence := s.nextSeq + 1;
              var t := s.Give(issued, facts).0;
              s.current.Some? && s.ledger.Accepts(sequence) &&
                s.Give(issued, facts).1.value.sequence == sequence == t.nextSeq &&
              t.ledger == s.ledger.Record(sequence, issued, facts.ends) &&
              t.confirmed == s.confirmed.Record(sequence, s.current.value.tick) &&
              t.waits == s.WaitsGiven(sequence, issued, s.current.value, facts)
  {
    hide Readiness.Below, Orders.Inv, Confirming.Inv, Orders.Ledger.Record, State.WaitsGiven, Readiness.Waits.Valid;
  }

  lemma GiveKeeps(s: State, issued: Orders.Issued, facts: Facts)
    requires OrdersInv(s)
    ensures OrdersInv(s.Give(issued, facts).0)
  {
    GiveSets(s, issued, facts);
    hide State.Give, Readiness.Below, Orders.Inv, Confirming.Inv, Orders.Ledger.Record, State.WaitsGiven,
      Readiness.Waits.Valid;
    if s.Give(issued, facts).1.Ok? {
      var sequence := s.nextSeq + 1;
      Orders.StepKeepsInv(s.ledger, Orders.Recorded(sequence, issued, facts.ends));
      RecordSets(s.ledger, sequence, issued, facts.ends);
      Confirming.RecordKeeps(s.confirmed, s.nextSeq, sequence, s.current.value.tick);
      MoreBelow(s.waits, s.nextSeq, sequence);
      WaitsGivenBelow(s, issued, s.current.value, facts, sequence);
    }
  }

  /** What a message changes of the orders. */
  lemma TakeSets(s: State, msg: Message)
    requires s.Valid()
    ensures var t := s.Take(msg).0;
            t.nextSeq == s.nextSeq && (t.confirmed == s.confirmed ||
              (msg.Snapshot? && t.confirmed == s.SettledBy(msg.view))) &&
            (t.ledger == s.ledger || t.ledger == s.ledger.Clear(None) ||
              (msg.OrderRejected? && t.ledger == s.ledger.Reject(msg.sequence))) &&
            (t.waits == s.waits || (msg.Snapshot? && t.waits ==
              s.waits.Synchronize(msg.view.tick, ContextOf(msg.view.bag, s.SettledBy(msg.view).through))) ||
             (msg.OrderRejected? && t.waits == s.waits.Reject(msg.sequence)))
    ensures msg.OrderRejected? && !s.TooMany(msg) ==>
              s.Take(msg).0.ledger == s.ledger.Reject(msg.sequence) &&
                s.Take(msg).0.waits == s.waits.Reject(msg.sequence)
  {
    hide Readiness.Waits.Synchronize, Readiness.Waits.Reject, Orders.Ledger.Reject, Orders.Ledger.Clear,
      Readiness.Waits.Valid;
  }

  lemma TakeKeeps(s: State, msg: Message)
    requires OrdersInv(s)
    ensures OrdersInv(s.Take(msg).0)
  {
    TakeSets(s, msg);
    hide State.Take, Readiness.Below, Orders.Inv, Confirming.Inv, Readiness.Waits.Valid;
    Orders.StepKeepsInv(s.ledger, Orders.Cleared(None));
    match msg
    case Snapshot(view) =>
      Confirming.SnapshotSettles(s.confirmed, s.nextSeq, if s.Strict() then view.settled else None, view.tick);
      Readiness.SynchronizeBelow(s.waits, view.tick, ContextOf(view.bag, s.SettledBy(view).through), s.nextSeq);
      hide Readiness.Waits.Synchronize;
    case OrderRejected(sequence) =>
      Orders.StepKeepsInv(s.ledger, Orders.Rejected(sequence));
      Readiness.RejectBelow(s.waits, sequence, s.nextSeq);
      hide Readiness.Waits.Reject;
    case _ =>
  }

  /** Numbers that follow one another from the one after `from`. */
  predicate Follow(numbers: seq<u32>, from: u32) { forall i :: 0 <= i < |numbers| ==> numbers[i] == from + 1 + i }

  lemma {:induction false} GiveAllKeeps(s: State, orders: seq<Orders.Issued>, facts: Facts)
    requires OrdersInv(s)
    ensures var (t, r) := s.GiveAll(orders, facts);
            OrdersInv(t) &&
            (r.Ok? ==>
               |r.value| == |orders| && t.nextSeq == s.nextSeq + |orders| && Follow(NumbersOf(r.value), s.nextSeq))
  {
    if orders != [] {
      var rest := orders[..|orders| - 1];
      GiveAllKeeps(s, rest, facts);
      var (t, before) := s.GiveAll(rest, facts);
      if before.Ok? {
        GiveKeeps(t, orders[|orders| - 1], facts);
        GivenInSequence(t, orders[|orders| - 1], facts);
        hide OrdersInv, State.Give;
        var (u, out) := t.Give(orders[|orders| - 1], facts);
        if out.Ok? {
          assert (before.value + [out.value])[..|before.value|] == before.value;
        }
      }
    }
  }

  lemma RestartKeeps(s: State, facts: Facts)
    requires OrdersInv(s)
    ensures var (t, r) := s.Resume(facts);
            OrdersInv(t) && (r.Ok? ==> t.nextSeq == s.nextSeq + |r.value| && Follow(NumbersOf(r.value), s.nextSeq))
  {
    var quiet := s.(stream := QUIET);
    assert OrdersInv(quiet) by {
      hide Readiness.Below, Orders.Inv, Confirming.Inv, Readiness.Waits.Valid;
    }
    GiveAllKeeps(quiet, s.GivenAgain(), facts);
    hide State.GiveAll, State.GivenAgain, OrdersInv, Readiness.Waits.Valid;
  }

  lemma BindKeeps(s: State, player: nat)
    requires OrdersInv(s)
    ensures OrdersInv(s.Bind(player)) && s.Bind(player).nextSeq == s.nextSeq
  {
    Confirming.BindKeeps(s.confirmed, s.nextSeq, player);
    hide Orders.Inv, Confirming.Inv;
  }

  lemma TakeNumbers(s: State, msg: Message)
    requires s.Valid()
    ensures s.Take(msg).0.nextSeq == s.nextSeq
    ensures s.Take(msg).1.Ok? ==> !s.Take(msg).1.value.Given? && !s.Take(msg).1.value.Resumed?
  {
    hide Readiness.Waits.Synchronize, Readiness.Waits.Reject, Orders.Ledger.Reject, Orders.Ledger.Clear,
      Readiness.Waits.Valid;
  }

  /** The numbers of the orders a step tells of. */
  function Sent(told: Told): seq<u32> {
    if told.Given? then [told.order.sequence] else if told.Resumed? then NumbersOf(told.resend) else []
  }

  lemma StepKeeps(s: State, op: Op)
    requires OrdersInv(s)
    ensures OrdersInv(Next(s, op).0)
    ensures Next(s, op).1.Some? ==>
              Follow(Sent(Next(s, op).1.value), s.nextSeq) &&
                Next(s, op).0.nextSeq == s.nextSeq + |Sent(Next(s, op).1.value)|
  {
    match op
    case Taken(msg) =>
      TakeKeeps(s, msg);
      TakeNumbers(s, msg);
      hide State.Take, OrdersInv;
    case Gave(issued, facts) =>
      GiveKeeps(s, issued, facts);
      GivenInSequence(s, issued, facts);
      hide State.Give, OrdersInv;
    case TurnOver =>
      hide Readiness.Below, Orders.Inv, Confirming.Inv;
    case Restarted(facts) =>
      RestartKeeps(s, facts);
      hide State.Resume, OrdersInv;
    case Bound(player) =>
      BindKeeps(s, player);
      hide State.Bind, OrdersInv;
  }

  lemma OpeningInv(terms: Terms, policy: AckPolicy, owner: Option<u8>)
    ensures OrdersInv(Opening(terms, policy, owner))
  {
  }

  /** Over every run, restarts among it, the orders given are numbered 1, 2, 3 and on: none twice
      and none left out; and the ledger and the waits stay in step with them. */
  lemma {:induction false} NumberedInOrder(terms: Terms, policy: AckPolicy, owner: Option<u8>, ops: seq<Op>)
    requires After(Opening(terms, policy, owner), ops).whole
    ensures var r := After(Opening(terms, policy, owner), ops);
            OrdersInv(r.state) && |Numbers(r.trace)| == r.state.nextSeq && Follow(Numbers(r.trace), 0)
  {
    OpeningInv(terms, policy, owner);
    hide OrdersInv, Next;
    if ops != [] {
      AfterStep(Opening(terms, policy, owner), ops);
      hide After, Opening;
      var before := After(Opening(terms, policy, owner), ops[..|ops| - 1]);
      NumberedInOrder(terms, policy, owner, ops[..|ops| - 1]);
      StepKeeps(before.state, ops[|ops| - 1]);
      NumbersStep(before.trace, Next(before.state, ops[|ops| - 1]).1.value, before.state.nextSeq);
    }
  }

  /** Numbers that follow on are followed on by those of the next step. */
  lemma {:induction false} NumbersStep(trace: seq<Told>, told: Told, from: u32)
    requires |Numbers(trace)| == from && Follow(Numbers(trace), 0) && Follow(Sent(told), from)
    ensures Numbers(trace + [told]) == Numbers(trace) + Sent(told) && Follow(Numbers(trace + [told]), 0)
  {
    Snoc(trace, told);
    hide NumbersOf;
  }

  // ---------- a refused order ----------

  /** What a refusal puts back: every wait and mute a reader is told, and what stood for each unit,
      but for another courier the order took the body from. */
  lemma RefusedOrderUndone(s: State, issued: Orders.Issued, facts: Facts)
    requires OrdersInv(s) && s.Give(issued, facts).1.Ok?
    ensures var (given, out) := s.Give(issued, facts);
            given.Valid() && (!given.TooMany(OrderRejected(out.value.sequence)) ==>
              var undone := given.Take(OrderRejected(out.value.sequence)).0;
              undone.Valid() && Readiness.SameReadings(undone.waits, s.waits) && undone.nextSeq == out.value.sequence &&
              forall unit: Option<Orders.EntityId> ::
                undone.ledger.Standing(unit) == s.ledger.Standing(unit) <==>
                unit == issued.unit || Orders.BodyOf(unit) != Orders.BodyOf(issued.unit) ||
                !Orders.Transitions(issued, facts.ends) || s.ledger.Standing(unit) == None)
  {
    hide State.Take, State.Give, State.WaitsGiven, State.TooMany;
    hide Readiness.Below, Readiness.SameReadings, Readiness.Waits.Valid, Readiness.Waits.Reject;
    hide Orders.Inv, Orders.Transitions, Orders.Ledger.Record, Orders.Ledger.Reject, Orders.Ledger.Standing;
    GiveSets(s, issued, facts);
    var sequence := s.nextSeq + 1;
    var given := s.Give(issued, facts).0;
    TakeSets(given, OrderRejected(sequence));
    WaitsUndone(s, issued, s.current.value, facts, sequence);
    forall unit: Option<Orders.EntityId>
      ensures given.ledger.Reject(sequence).Standing(unit) == s.ledger.Standing(unit) <==>
              unit == issued.unit || Orders.BodyOf(unit) != Orders.BodyOf(issued.unit) ||
              !Orders.Transitions(issued, facts.ends) || s.ledger.Standing(unit) == None
    {
      Orders.StandingAfterRefusal(s.ledger, sequence, issued, facts.ends, unit);
    }
  }

  lemma WaitsUndone(s: State, issued: Orders.Issued, view: View, facts: Facts, sequence: u32)
    requires s.Valid() && Readiness.Below(s.waits, s.nextSeq) && s.nextSeq < sequence
    ensures s.WaitsGiven(sequence, issued, view, facts).Reject(sequence).Valid()
    ensures Readiness.SameReadings(s.WaitsGiven(sequence, issued, view, facts).Reject(sequence), s.waits)
  {
    Readiness.BelowIsFresh(s.waits, s.nextSeq, sequence);
    var body := WaitStartedBy(issued, facts.sharesWait);
    hide Readiness.Below, Readiness.SameReadings, Readiness.Waits.Start, Readiness.Waits.Reject,
      Readiness.Waits.Fresh, Readiness.Waits.Valid;
    if !issued.Waits() && body.Some? {
      Readiness.StartUndone(s.waits, body.value, sequence, view.tick);
    } else {
      hide Readiness.Waits.StartMutes;
      Readiness.MutesUndone(facts.cat, s.waits, sequence, SwapOf(issued), view.tick, facts.lands,
        ContextOf(view.bag, s.confirmed.through));
    }
  }

  /** An accepted snapshot becomes the current one. The seat's own body changed exactly when the
      snapshot before showed another, or, with none before, when this one shows any. */
  lemma SnapshotTaken(s: State, view: View)
    requires s.Valid() && s.Take(Snapshot(view)).1.Ok?
    ensures var (t, r) := s.Take(Snapshot(view));
            t.current == Some(view) && r.value.Folded? && r.value.tick == view.tick &&
            r.value.skipped == view.skipped &&
            (s.owner == None ==> !r.value.bodyChanged) &&
            (s.owner.Some? && s.current.Some? ==> (r.value.bodyChanged <==> s.current.value.body != view.body)) &&
            (s.owner.Some? && s.current == None ==> (r.value.bodyChanged <==> view.body.Some?))
  {
    hide Readiness.Waits.Synchronize, Readiness.Waits.Valid, SkipsFit;
  }

  /** When the own hero falls or stands up again, what was ordered of its last body is gone for good:
      no refusal brings it back. The courier's orders stay, and with the body unchanged all do. */
  lemma NewBodyForgets(s: State, view: View, sequence: u32)
    requires OrdersInv(s) && s.Take(Snapshot(view)).1.Ok?
    ensures var (t, r) := s.Take(Snapshot(view));
            r.value.Folded? && t.ledger.Standing(None) ==
              (if r.value.bodyChanged then None else s.ledger.Standing(None)) &&
            (r.value.bodyChanged ==> t.ledger.Reject(sequence).Standing(None) == None) &&
            (!r.value.bodyChanged ==> t.ledger == s.ledger) && t.ledger.bodies[1] == s.ledger.bodies[1]
  {
    hide Readiness.Waits.Synchronize, Readiness.Waits.Valid, Readiness.Below, SkipsFit;
  }

  lemma CurrentStays(s: State, op: Op)
    requires s.Valid() && !(op.Taken? && op.msg.Snapshot?)
    ensures Next(s, op).0.current == s.current && Next(s, op).0.owner == s.owner
  {
    match op
    case Taken(_) =>
      hide Readiness.Waits.Reject, Readiness.Waits.Valid, Orders.Ledger.Reject;
    case Gave(issued, facts) =>
      GiveReads(s, issued, facts);
      hide State.Give, Readiness.Waits.Valid;
    case Restarted(facts) =>
      GiveAllReads(s.(stream := QUIET), s.GivenAgain(), facts);
      hide State.GiveAll, State.GivenAgain, Readiness.Waits.Valid;
    case _ =>
  }

  lemma {:induction false} CurrentLasts(s: State, ops: seq<Op>)
    requires s.Valid() && forall i :: 0 <= i < |ops| ==> !(ops[i].Taken? && ops[i].msg.Snapshot?)
    ensures After(s, ops).state.current == s.current && After(s, ops).state.owner == s.owner
  {
    if ops != [] {
      var before := ops[..|ops| - 1];
      CurrentLasts(s, before);
      CurrentStays(After(s, before).state, ops[|ops| - 1]);
      hide Next, State.Valid;
    }
  }

  lemma {:induction false} RunKeepsOrders(s: State, ops: seq<Op>)
    requires OrdersInv(s)
    ensures OrdersInv(After(s, ops).state)
  {
    assert s.Valid();
    hide OrdersInv, Next;
    if ops != [] {
      RunKeepsOrders(s, ops[..|ops| - 1]);
      StepKeeps(After(s, ops[..|ops| - 1]).state, ops[|ops| - 1]);
    }
  }

  /** From one snapshot of a seat's stream to the next, whatever is done in between: what then stands
      for the hero goes exactly when the two snapshots show different bodies. */
  lemma OrdersLastWithTheBody(s: State, first: View, between: seq<Op>, second: View)
    requires OrdersInv(s) && s.owner.Some? && s.Take(Snapshot(first)).1.Ok?
    requires forall i :: 0 <= i < |between| ==> !(between[i].Taken? && between[i].msg.Snapshot?)
    requires After(s.Take(Snapshot(first)).0, between).state.Take(Snapshot(second)).1.Ok?
    ensures var met := After(s.Take(Snapshot(first)).0, between).state;
            var (t, r) := met.Take(Snapshot(second));
            r.value.Folded? && (r.value.bodyChanged <==> first.body != second.body) &&
            t.ledger.Standing(None) == (if first.body == second.body then met.ledger.Standing(None) else None) &&
            t.ledger.bodies[1] == met.ledger.bodies[1] && (first.body == second.body ==> t.ledger == met.ledger)
  {
    assert s.Valid();
    hide State.Take, OrdersInv, After, State.Valid, Orders.Ledger.Standing;
    SnapshotTaken(s, first);
    TakeKeeps(s, Snapshot(first));
    TakeKeepsOwner(s, Snapshot(first));
    CurrentLasts(s.Take(Snapshot(first)).0, between);
    RunKeepsOrders(s.Take(Snapshot(first)).0, between);
    var met := After(s.Take(Snapshot(first)).0, between).state;
    SnapshotTaken(met, second);
    NewBodyForgets(met, second, 0);
  }

  lemma TakeKeepsOwner(s: State, msg: Message)
    requires s.Valid()
    ensures s.Take(msg).0.owner == s.owner
  {
    hide Readiness.Waits.Synchronize, Readiness.Waits.Reject, Readiness.Waits.Valid, Orders.Ledger.Reject,
      Orders.Ledger.Clear;
  }

  // ---------- a restart ----------

  /** A restart gives again, freshly numbered, what stands for each body with none queued behind it,
      the hero's first and only while the hero is seen, and leaves all of it standing. It gives
      nothing to a stream that is no seat's, or before its first snapshot. */
  lemma RestartRepeatsStanding(s: State, facts: Facts)
    requires OrdersInv(s) && s.Resume(facts).1.Ok?
    ensures var (t, r) := s.Resume(facts);
            var (ofHero, ofCourier) := (s.ledger.bodies[0], s.ledger.bodies[1]);
            var told := s.owner.Some? && s.current.Some?;
            var hero := told && s.current.value.heroSeen && ofHero.current.Some? && !ofHero.queued;
            var courier := told && ofCourier.current.Some? && !ofCourier.queued;
            t.ledger.StandingOrders() == s.ledger.StandingOrders() &&
            |r.value| == (if hero then 1 else 0) + (if courier then 1 else 0) &&
            (hero ==> r.value[0].issued == ofHero.current.value.issued) &&
            (courier ==> r.value[|r.value| - 1].issued == ofCourier.current.value.issued)
  {
    var quiet := s.(stream := QUIET);
    LivingStand(s.ledger.StandingOrders(), s.current.Some? && s.current.value.heroSeen);
    GivenAgainSpelled(s);
    assert OrdersInv(quiet) by {
      hide Readiness.Below, Orders.Inv, Confirming.Inv, Readiness.Waits.Valid;
    }
    hide OrdersInv, Readiness.Waits.Valid, Orders.Ledger.StandingOrders;
    RepeatsStand(quiet, s.GivenAgain(), facts);
    GivesAll(quiet, s.GivenAgain(), facts);
  }

  /** What a body gives again stays but for a hero not seen. */
  lemma {:induction false} LivingWith(before: seq<Orders.Issued>, body: Orders.BodyOrders, b: nat, heroSeen: bool,
                                      lastSeq: Option<u32>)
    requires Orders.BodyInv(body, b, lastSeq) && b < 2
    ensures Living(before + Orders.GivenAgain(body), heroSeen) ==
            Living(before, heroSeen) + if b == 0 && !heroSeen then [] else Orders.GivenAgain(body)
  {
    var again := Orders.GivenAgain(body);
    if again == [] {
      assert before + again == before && Living(before, heroSeen) + [] == Living(before, heroSeen);
    } else {
      assert (before + again)[..|before|] == before && (before + again)[|before|] == again[0];
    }
  }

  lemma LivingOf(hero: Orders.BodyOrders, courier: Orders.BodyOrders, heroSeen: bool, lastSeq: Option<u32>)
    requires Orders.BodyInv(hero, 0, lastSeq) && Orders.BodyInv(courier, 1, lastSeq)
    ensures Living(Orders.GivenAgain(hero) + Orders.GivenAgain(courier), heroSeen) ==
            (if heroSeen then Orders.GivenAgain(hero) else []) + Orders.GivenAgain(courier)
  {
    LivingWith([], hero, 0, heroSeen, lastSeq);
    LivingWith(Orders.GivenAgain(hero), courier, 1, heroSeen, lastSeq);
    hide Orders.BodyInv, Orders.GivenAgain;
    assert Living([], heroSeen) == [];
    assert [] + Orders.GivenAgain(hero) == Orders.GivenAgain(hero);
  }

  lemma GivenAgainSpelled(s: State)
    requires OrdersInv(s)
    ensures s.GivenAgain() ==
            if s.owner == None || s.current == None then []
            else if s.current.value.heroSeen
              then Orders.GivenAgain(s.ledger.bodies[0]) + Orders.GivenAgain(s.ledger.bodies[1])
            else Orders.GivenAgain(s.ledger.bodies[1])
  {
    hide Readiness.Below, Readiness.Waits.Valid, Orders.BodyInv;
    if s.current.Some? {
      LivingOf(s.ledger.bodies[0], s.ledger.bodies[1], s.current.value.heroSeen, s.ledger.lastSeq);
    }
  }

  /** Of a fallen hero's orders only those for the shop and the glyph could be given again. */
  lemma {:induction false} LivingStand(orders: seq<Orders.Issued>, heroSeen: bool)
    ensures heroSeen ==> Living(orders, heroSeen) == orders
    ensures forall o :: o in Living(orders, heroSeen) <==>
              o in orders && (heroSeen || o.unit.Some? || o.order.Buy? || o.order.Sell? || o.order.Disassemble? ||
                              o.order.SetCombineLock? || o.order.Glyph? || o.order.Cheat?)
  {
    if orders != [] {
      var last := orders[|orders| - 1];
      assert orders == orders[..|orders| - 1] + [last];
      LivingStand(orders[..|orders| - 1], heroSeen);
    }
  }

  lemma GivesIt(s: State, issued: Orders.Issued, facts: Facts)
    requires s.Valid() && s.Give(issued, facts).1.Ok?
    ensures s.Give(issued, facts).1.value.issued == issued
  {
    hide Orders.Ledger.Record, State.WaitsGiven, Readiness.Waits.Valid;
  }

  lemma {:induction false} GivesAll(s: State, orders: seq<Orders.Issued>, facts: Facts)
    requires s.Valid() && s.GiveAll(orders, facts).1.Ok?
    ensures var sent := s.GiveAll(orders, facts).1.value;
            |sent| == |orders| && forall i :: 0 <= i < |orders| ==> sent[i].issued == orders[i]
  {
    hide State.Give, State.Valid;
    if orders != [] {
      var rest, last := orders[..|orders| - 1], orders[|orders| - 1];
      GivesAll(s, rest, facts);
      GivesIt(s.GiveAll(rest, facts).0, last, facts);
    }
  }

  lemma {:induction false} RepeatsStand(s: State, orders: seq<Orders.Issued>, facts: Facts)
    requires OrdersInv(s) && s.GiveAll(orders, facts).1.Ok?
    requires forall o :: o in orders ==> o in s.ledger.StandingOrders()
    ensures s.GiveAll(orders, facts).0.ledger.StandingOrders() == s.ledger.StandingOrders()
  {
    assert s.Valid();
    hide OrdersInv, Readiness.Waits.Valid, Orders.Ledger.StandingOrders, State.Give;
    if orders != [] {
      var rest, last := orders[..|orders| - 1], orders[|orders| - 1];
      assert forall o :: o in rest ==> o in orders;
      RepeatsStand(s, rest, facts);
      GiveAllKeeps(s, rest, facts);
      RepeatStands(s.GiveAll(rest, facts).0, last, facts);
    }
  }

  lemma RepeatStands(s: State, issued: Orders.Issued, facts: Facts)
    requires OrdersInv(s) && issued in s.ledger.StandingOrders() && s.Give(issued, facts).1.Ok?
    ensures s.Give(issued, facts).0.ledger.StandingOrders() == s.ledger.StandingOrders()
  {
    hide Readiness.Below, Readiness.Waits.Valid, State.WaitsGiven;
    var b := Orders.BodyOf(issued.unit);
    assert Orders.GivenAgain(s.ledger.bodies[b]) == [issued];
  }
}
