/** orders.rs: what stands for each of a seat's two bodies, and how a refused order is undone. */
module Orders {
  import opened Machine

  type EntityId = u64

  datatype Target = Nothing | Position(pos: Vec2) | Entity(id: EntityId)

  /** The orders, with the payloads of those the ledger looks into. */
  datatype Order =
    | Move(target: Target)
    | Attack(target: Target)
    | MoveDirection(facing: u16)
    | Cast(slot: u8, target: Target)
    | Use(slot: u8, target: Target)
    | Put(slot: u8, target: Target)
    | Take(target: Target)
    | SwapSlots(from: u8, to: u8)
    | Buy(what: u16)
    | Sell(slot: u8)
    | Disassemble(slot: u8)
    | SetCombineLock(slot: u8)
    | Glyph
    | Cheat(what: u16)
    | Learn(slot: u8)
    | LearnTalent(what: u16)
    | LearnAttributeBonus
    | SwitchWard(slot: u8)
  {
    predicate Stands() { Move? || MoveDirection? || Attack? }

    predicate Queues() { Move? || Attack? || Cast? || Use? || Put? || Take? || MoveDirection? }

    predicate NeedsBody() { !(Buy? || Sell? || Disassemble? || SetCombineLock? || Glyph? || Cheat?) }
  }

  /** The own hero's order, or that of the courier the unit names. */
  datatype Issued = Issued(unit: Option<EntityId>, order: Order, queue: bool)
  {
    predicate Waits() { queue && order.Queues() }
  }

  function BodyOf(unit: Option<EntityId>): nat { if unit.Some? then 1 else 0 }

  datatype Sent = Sent(sequence: u32, issued: Issued)

  datatype Rollback = Rollback(sequence: u32, previous: Option<Sent>)

  datatype BodyOrders = BodyOrders(current: Option<Sent>, rollback: Option<Rollback>, queued: bool)
  {
    function Transition(sequence: u32, unit: Option<EntityId>, next: Option<Sent>): BodyOrders {
      var previous := if current.Some? && current.value.issued.unit != unit then None else current;
      BodyOrders(next, Some(Rollback(sequence, previous)), false)
    }

    predicate Rejects(sequence: u32) { rollback.Some? && rollback.value.sequence == sequence }

    function Reject(sequence: u32): BodyOrders {
      if Rejects(sequence) then BodyOrders(rollback.value.previous, None, queued) else this
    }
  }

  const IDLE := BodyOrders(None, None, false)

  datatype OrderError = OrderSequence(incoming: u32, previous: u32)

  /** Whether an order changes what stands for its body: it stands itself, or ends what stood. */
  predicate Transitions(issued: Issued, endsBody: bool) { !issued.Waits() && (issued.order.Stands() || endsBody) }

  function StandsAfter(sequence: u32, issued: Issued): Option<Sent> {
    if issued.order.Stands() then Some(Sent(sequence, issued)) else None
  }

  datatype Ledger = Ledger(bodies: seq<BodyOrders>, lastSeq: Option<u32>)
  {
    predicate Accepts(sequence: u32) { lastSeq == None || sequence > lastSeq.value }

    function Record(sequence: u32, issued: Issued, endsBody: bool): (l: Ledger)
      requires |bodies| == 2
      ensures |l.bodies| == 2
    {
      if !Accepts(sequence) then this
      else
        var b := BodyOf(issued.unit);
        var body :=
          if issued.Waits() then bodies[b].(queued := true)
          else if Transitions(issued, endsBody)
            then bodies[b].Transition(sequence, issued.unit, StandsAfter(sequence, issued))
          else bodies[b];
        Ledger(bodies[b := body], Some(sequence))
    }

    /** Only the first body that has the order undoes it. */
    function Reject(sequence: u32): (l: Ledger)
      requires |bodies| == 2
      ensures |l.bodies| == 2
    {
      if bodies[0].Rejects(sequence) then this.(bodies := [bodies[0].Reject(sequence), bodies[1]])
      else this.(bodies := [bodies[0], bodies[1].Reject(sequence)])
    }

    function Clear(unit: Option<EntityId>): (l: Ledger)
      requires |bodies| == 2
      ensures |l.bodies| == 2
    {
      this.(bodies := bodies[BodyOf(unit) := IDLE])
    }

    function Standing(unit: Option<EntityId>): Option<Sent>
      requires |bodies| == 2
    {
      var current := bodies[BodyOf(unit)].current;
      if current.Some? && current.value.issued.unit == unit then current else None
    }

    predicate Repeats(issued: Issued)
      requires |bodies| == 2
    {
      var body := bodies[BodyOf(issued.unit)];
      issued.order.Stands() && !issued.queue && !body.queued && body.current.Some? &&
        body.current.value.issued == issued
    }

    function StandingOrders(): seq<Issued>
      requires |bodies| == 2
    {
      GivenAgain(bodies[0]) + GivenAgain(bodies[1])
    }

    function Reconciled(world: World): Ledger
      requires |bodies| == 2
    {
      Ledger([ReconciledBody(world, bodies[0]), ReconciledBody(world, bodies[1])], lastSeq)
    }
  }

  function GivenAgain(body: BodyOrders): seq<Issued> {
    if !body.queued && body.current.Some? then [body.current.value.issued] else []
  }

  const NO_ORDERS := Ledger([IDLE, IDLE], None)

  // ---------- the view an order is reconciled with ----------

  /** Where a unit was last seen, and its last death. */
  datatype Seen = Seen(lastSeen: u32, death: Option<u32>, pos: Vec2)

  /** What the session shows of the current snapshot: its own bodies, the live units, loot and
      runes in sight, and what it remembers of the rest. */
  datatype World = World(heroAlive: bool, courier: Option<EntityId>, tick: u32, inSight: set<EntityId>,
    remembered: map<EntityId, Seen>)
  {
    predicate BodyAlive(unit: Option<EntityId>) { if unit == None then heroAlive else courier == unit }

    /** The view before missed the unit by one tick at most, and it did not die since. */
    predicate LatestPlaceKnown(id: EntityId) {
      id in remembered && remembered[id].lastSeen + 1 == tick &&
      (remembered[id].death == None || remembered[id].death.value < remembered[id].lastSeen)
    }
  }

  function ReconcileDirective(world: World, issued: Issued): Option<Issued> {
    if !world.BodyAlive(issued.unit) then None
    else if !(issued.order.Attack? || issued.order.Move?) || !issued.order.target.Entity? then Some(issued)
    else
      var id := issued.order.target.id;
      if id in world.inSight then Some(issued)
      else if !world.LatestPlaceKnown(id) then None
      else
        var place := Position(world.remembered[id].pos);
        Some(issued.(order := if issued.order.Attack? then Attack(place) else Move(place)))
  }

  function ReconcileStanding(world: World, standing: Option<Sent>): Option<Sent> {
    match standing
    case None => None
    case Some(sent) =>
      match ReconcileDirective(world, sent.issued)
      case None => None
      case Some(issued) => Some(Sent(sent.sequence, issued))
  }

  function ReconciledBody(world: World, body: BodyOrders): BodyOrders {
    BodyOrders(ReconcileStanding(world, body.current),
               if body.rollback == None then None
               else Some(Rollback(body.rollback.value.sequence,
                 ReconcileStanding(world, body.rollback.value.previous))),
               body.queued)
  }

  // ---------- the ledger as it is kept ----------

  class OrderLedger {
    var bodies: seq<BodyOrders>
    var lastSeq: Option<u32>

    ghost function Now(): Ledger reads this { Ledger(bodies, lastSeq) }

    constructor ()
      ensures Now() == NO_ORDERS
    {
      bodies := [IDLE, IDLE];
      lastSeq := None;
    }

    method Record(sequence: u32, issued: Issued, endsBody: bool) returns (refused: Option<OrderError>)
      requires |bodies| == 2
      modifies this
      ensures Now() == old(Now()).Record(sequence, issued, endsBody) && |bodies| == 2
      ensures refused == if old(Now()).Accepts(sequence) then None
              else Some(OrderSequence(sequence, old(lastSeq).value))
    {
      if lastSeq.Some? && sequence <= lastSeq.value {
        return Some(OrderSequence(sequence, lastSeq.value));
      }
      lastSeq := Some(sequence);
      var b := BodyOf(issued.unit);
      if issued.Waits() {
        bodies := bodies[b := bodies[b].(queued := true)];
      } else if issued.order.Stands() {
        bodies := bodies[b := bodies[b].Transition(sequence, issued.unit, Some(Sent(sequence, issued)))];
      } else if endsBody {
        bodies := bodies[b := bodies[b].Transition(sequence, issued.unit, None)];
      }
      return None;
    }

    method Reject(sequence: u32) returns (undone: bool)
      requires |bodies| == 2
      modifies this
      ensures Now() == old(Now()).Reject(sequence) && |bodies| == 2
      ensures undone <==> old(bodies)[0].Rejects(sequence) || old(bodies)[1].Rejects(sequence)
    {
      undone := false;
      var b := 0;
      while b < 2 && !undone
        invariant 0 <= b <= 2 && |bodies| == 2 && lastSeq == old(lastSeq)
        invariant undone ==> b > 0 && old(bodies)[b - 1].Rejects(sequence) && Now() == old(Now()).Reject(sequence)
        invariant !undone ==> bodies == old(bodies) && forall i :: 0 <= i < b ==> !bodies[i].Rejects(sequence)
      {
        undone := bodies[b].Rejects(sequence);
        bodies := bodies[b := bodies[b].Reject(sequence)];
        b := b + 1;
      }
    }

    method Clear(unit: Option<EntityId>)
      requires |bodies| == 2
      modifies this
      ensures Now() == old(Now()).Clear(unit)
    {
      bodies := bodies[BodyOf(unit) := IDLE];
    }
  }

  // ---------- what every step keeps ----------

  /** A stored order stands, was not queued, drives this body, and is among those recorded. */
  ghost predicate Stored(sent: Option<Sent>, b: nat, lastSeq: Option<u32>) {
    sent.Some? ==>
      sent.value.issued.order.Stands() && !sent.value.issued.queue && BodyOf(sent.value.issued.unit) == b &&
      lastSeq.Some? && sent.value.sequence <= lastSeq.value
  }

  ghost predicate BodyInv(body: BodyOrders, b: nat, lastSeq: Option<u32>) {
    Stored(body.current, b, lastSeq) &&
    (body.rollback.Some? ==>
       lastSeq.Some? && body.rollback.value.sequence <= lastSeq.value &&
         Stored(body.rollback.value.previous, b, lastSeq))
  }

  /** Stored orders are of the standing kinds, and no order can be undone on both bodies. */
  ghost predicate Inv(l: Ledger) {
    |l.bodies| == 2 && BodyInv(l.bodies[0], 0, l.lastSeq) && BodyInv(l.bodies[1], 1, l.lastSeq) &&
    !(l.bodies[0].rollback.Some? && l.bodies[1].rollback.Some? &&
      l.bodies[0].rollback.value.sequence == l.bodies[1].rollback.value.sequence)
  }

  datatype LedgerOp =
    | Recorded(sequence: u32, issued: Issued, endsBody: bool)
    | Rejected(sequence: u32)
    | Cleared(unit: Option<EntityId>)

  function Step(l: Ledger, op: LedgerOp): Ledger
    requires |l.bodies| == 2
  {
    match op
    case Recorded(s, issued, ends) => l.Record(s, issued, ends)
    case Rejected(s) => l.Reject(s)
    case Cleared(unit) => l.Clear(unit)
  }

  function Run(l: Ledger, ops: seq<LedgerOp>): (after: Ledger)
    requires |l.bodies| == 2
    ensures |after.bodies| == 2
  {
    if ops == [] then l else Step(Run(l, ops[..|ops| - 1]), ops[|ops| - 1])
  }

  lemma BodyLater(body: BodyOrders, b: nat, lastSeq: Option<u32>, sequence: u32)
    requires BodyInv(body, b, lastSeq) && (lastSeq == None || lastSeq.value <= sequence)
    ensures BodyInv(body, b, Some(sequence))
  {
  }

  lemma BodyRecords(l: Ledger, sequence: u32, issued: Issued, endsBody: bool)
    requires Inv(l) && l.Accepts(sequence)
    ensures var b := BodyOf(issued.unit);
            var body := l.Record(sequence, issued, endsBody).bodies[b];
            BodyInv(body, b, Some(sequence)) && l.Record(sequence, issued, endsBody).lastSeq == Some(sequence) &&
            l.Record(sequence, issued, endsBody).bodies[1 - b] == l.bodies[1 - b] &&
            (body.rollback == l.bodies[b].rollback || (body.rollback.Some? && body.rollback.value.sequence == sequence))
  {
    var b := BodyOf(issued.unit);
    BodyLater(l.bodies[b], b, l.lastSeq, sequence);
  }

  /** Both bodies' orders are stored well, and they cannot be undone together. */
  lemma InvOf(l: Ledger, b: nat)
    requires |l.bodies| == 2 && b < 2
    requires BodyInv(l.bodies[b], b, l.lastSeq) && BodyInv(l.bodies[1 - b], 1 - b, l.lastSeq)
    requires !(l.bodies[b].rollback.Some? && l.bodies[1 - b].rollback.Some? &&
               l.bodies[b].rollback.value.sequence == l.bodies[1 - b].rollback.value.sequence)
    ensures Inv(l)
  {
    hide BodyInv;
  }

  lemma BodyNumbered(l: Ledger, b: nat)
    requires Inv(l) && b < 2 && l.bodies[b].rollback.Some?
    ensures l.lastSeq.Some? && l.bodies[b].rollback.value.sequence <= l.lastSeq.value
  {
  }

  lemma RecordKeepsInv(l: Ledger, sequence: u32, issued: Issued, endsBody: bool)
    requires Inv(l)
    ensures Inv(l.Record(sequence, issued, endsBody))
  {
    if l.Accepts(sequence) {
      var b := BodyOf(issued.unit);
      BodyRecords(l, sequence, issued, endsBody);
      BodyLater(l.bodies[1 - b], 1 - b, l.lastSeq, sequence);
      if l.bodies[1 - b].rollback.Some? {
        BodyNumbered(l, 1 - b);
      }
      var after := l.Record(sequence, issued, endsBody);
      assert !(after.bodies[b].rollback.Some? && after.bodies[1 - b].rollback.Some? &&
               after.bodies[b].rollback.value.sequence == after.bodies[1 - b].rollback.value.sequence) by {
        hide Ledger.Record, BodyInv;
      }
      hide Inv, BodyInv, Ledger.Record;
      InvOf(after, b);
    }
  }

  lemma StepKeepsInv(l: Ledger, op: LedgerOp)
    requires Inv(l)
    ensures Inv(Step(l, op))
  {
    match op
    case Recorded(s, issued, ends) =>
      RecordKeepsInv(l, s, issued, ends);
      hide Inv, Ledger.Record;
    case Rejected(s) =>
    case Cleared(unit) =>
  }

  /** In every run the stored orders stand, and the two bodies' rollbacks never share a sequence. */
  lemma {:induction false} RunKeepsInv(l: Ledger, ops: seq<LedgerOp>)
    requires Inv(l)
    ensures Inv(Run(l, ops))
  {
    if ops != [] {
      hide Inv;
      RunKeepsInv(l, ops[..|ops| - 1]);
      StepKeepsInv(Run(l, ops[..|ops| - 1]), ops[|ops| - 1]);
    }
  }

  /** What each kind of order leaves: one held for the queue marks its body, one that stands replaces
      what stood, one that ends what its body does leaves nothing standing, any other leaves the
      body alone; and never another body's orders. A number out of sequence is not recorded. */
  lemma RecordedByKind(l: Ledger, sequence: u32, issued: Issued, endsBody: bool)
    requires |l.bodies| == 2
    ensures var (b, o) := (if issued.unit == None then 0 else 1, issued.order);
            var stands := o.Move? || o.Attack? || o.MoveDirection?;
            var held := issued.queue && (stands || o.Cast? || o.Use? || o.Put? || o.Take?);
            var after := l.Record(sequence, issued, endsBody);
            if l.lastSeq.Some? && sequence <= l.lastSeq.value then after == l
            else after.lastSeq == Some(sequence) && after.bodies[1 - b] == l.bodies[1 - b] &&
                 (if held then after.bodies[b].queued && after.bodies[b].current == l.bodies[b].current &&
                               after.bodies[b].rollback == l.bodies[b].rollback
                  else if stands then after.bodies[b].current == Some(Sent(sequence, issued)) &&
                                      !after.bodies[b].queued
                  else if endsBody then after.bodies[b].current == None && !after.bodies[b].queued
                  else after.bodies[b] == l.bodies[b])
  {
  }

  /** An order repeats what stands exactly when it would stand at once and giving it leaves its body
      with the order and the empty queue it has. */
  lemma RepeatsWhenSame(l: Ledger, sequence: u32, issued: Issued, endsBody: bool)
    requires Inv(l) && l.Accepts(sequence)
    ensures var b := BodyOf(issued.unit);
            var after := l.Record(sequence, issued, endsBody);
            l.Repeats(issued) <==>
              !issued.queue && (issued.order.Move? || issued.order.Attack? || issued.order.MoveDirection?) &&
              l.bodies[b].current.Some? && after.bodies[b].queued == l.bodies[b].queued &&
              after.bodies[b].current.value.issued == l.bodies[b].current.value.issued
  {
  }

  lemma RejectsOnOneBody(l: Ledger, b: nat, sequence: u32)
    requires Inv(l) && b < 2 && l.bodies[b].Rejects(sequence)
    ensures l.Reject(sequence).bodies[b] == l.bodies[b].Reject(sequence)
    ensures l.Reject(sequence).bodies[1 - b] == l.bodies[1 - b] && l.Reject(sequence).lastSeq == l.lastSeq
  {
  }

  // ---------- undoing the newest transition ----------

  /** An operation that leaves a body's rollback of `sequence` alone. */
  predicate Spares(op: LedgerOp, b: nat, sequence: u32) {
    match op
    case Recorded(_, issued, ends) => BodyOf(issued.unit) != b || !Transitions(issued, ends)
    case Rejected(s) => s != sequence
    case Cleared(unit) => BodyOf(unit) != b
  }

  lemma {:induction false} RollbackLasts(l: Ledger, b: nat, sequence: u32, ops: seq<LedgerOp>)
    requires |l.bodies| == 2 && b < 2 && l.bodies[b].Rejects(sequence)
    requires forall i :: 0 <= i < |ops| ==> Spares(ops[i], b, sequence)
    ensures Run(l, ops).bodies[b].rollback == l.bodies[b].rollback
  {
    if ops != [] {
      RollbackLasts(l, b, sequence, ops[..|ops| - 1]);
    }
  }

  /** Whatever passes between that spares the body's rollback, rejecting a body's newest
      transition restores exactly what stood for that same unit, and the other body keeps all. */
  lemma NewestUndone(l: Ledger, sequence: u32, issued: Issued, endsBody: bool, between: seq<LedgerOp>)
    requires Inv(l) && l.Accepts(sequence) && Transitions(issued, endsBody)
    requires forall i :: 0 <= i < |between| ==> Spares(between[i], BodyOf(issued.unit), sequence)
    ensures var later := Run(l.Record(sequence, issued, endsBody), between);
            later.Reject(sequence).Standing(issued.unit) == l.Standing(issued.unit) &&
            later.Reject(sequence).bodies[1 - BodyOf(issued.unit)] == later.bodies[1 - BodyOf(issued.unit)] &&
            later.Reject(sequence).lastSeq == later.lastSeq
  {
    var b := BodyOf(issued.unit);
    var given := l.Record(sequence, issued, endsBody);
    StepKeepsInv(l, Recorded(sequence, issued, endsBody));
    hide Inv, Run, Ledger.Reject;
    RunKeepsInv(given, between);
    RollbackLasts(given, b, sequence, between);
    RejectsOnOneBody(Run(given, between), b, sequence);
  }

  /** A rejection changes the ledger exactly when some body's newest transition is the refused order's. */
  lemma OtherRejectionsChangeNothing(l: Ledger, sequence: u32)
    requires Inv(l)
    ensures l.Reject(sequence) == l <==> !l.bodies[0].Rejects(sequence) && !l.bodies[1].Rejects(sequence)
  {
    if !l.bodies[0].Rejects(sequence) && !l.bodies[1].Rejects(sequence) {
      assert l.Reject(sequence).bodies == l.bodies;
    }
  }

  /** What the rollback does not keep: whether orders were queued behind the one restored. The
      refused order leaves every repeat as it was exactly when none were, or when nothing is
      restored. */
  lemma QueueForgotten(l: Ledger, sequence: u32, issued: Issued, endsBody: bool)
    requires Inv(l) && l.Accepts(sequence) && Transitions(issued, endsBody)
    ensures var body := l.bodies[BodyOf(issued.unit)];
            var undone := l.Record(sequence, issued, endsBody).Reject(sequence);
            ((forall o: Issued :: o.unit == issued.unit ==> undone.Repeats(o) == l.Repeats(o)) <==>
             (body.queued ==> l.Standing(issued.unit) == None))
  {
    var undone := l.Record(sequence, issued, endsBody).Reject(sequence);
    if l.Standing(issued.unit).Some? {
      var o := l.Standing(issued.unit).value.issued;
      assert undone.Repeats(o);
    }
  }

  /** What a restart would give again is as it was exactly when the body's order was not held back
      for a queue and was that same unit's, or was held back and nothing is restored. */
  lemma GivenAgainAfterRefusal(l: Ledger, sequence: u32, issued: Issued, endsBody: bool)
    requires Inv(l) && l.Accepts(sequence) && Transitions(issued, endsBody)
    ensures var b := BodyOf(issued.unit);
            var undone := l.Record(sequence, issued, endsBody).Reject(sequence);
            (undone.StandingOrders() == l.StandingOrders() <==>
              GivenAgain(undone.bodies[b]) == GivenAgain(l.bodies[b])) &&
            (GivenAgain(undone.bodies[b]) == GivenAgain(l.bodies[b]) <==>
             if l.bodies[b].queued then l.Standing(issued.unit) == None
               else l.bodies[b].current == l.Standing(issued.unit))
  {
    var b := BodyOf(issued.unit);
    var undone := l.Record(sequence, issued, endsBody).Reject(sequence);
    assert undone.bodies[1 - b] == l.bodies[1 - b];
    hide Inv, Ledger.Record, Ledger.Reject;
    JoinedSides(undone, l, b);
  }

  /** With one body the same, two ledgers give the same again exactly when the other body does. */
  lemma JoinedSides(k: Ledger, l: Ledger, b: nat)
    requires |k.bodies| == |l.bodies| == 2 && b < 2 && k.bodies[1 - b] == l.bodies[1 - b]
    ensures k.StandingOrders() == l.StandingOrders() <==> GivenAgain(k.bodies[b]) == GivenAgain(l.bodies[b])
  {
    var kept := GivenAgain(l.bodies[1 - b]);
    var one, other := GivenAgain(k.bodies[b]), GivenAgain(l.bodies[b]);
    if k.StandingOrders() == l.StandingOrders() {
      if b == 0 {
        assert one == (one + kept)[..|one|] && other == (other + kept)[..|other|];
      } else {
        assert one == (kept + one)[|kept|..] && other == (kept + other)[|kept|..];
      }
    }
  }

  /** A reachable ledger at which both change: the hero walks, an order is queued behind the walk,
      and another walk is given and refused. */
  lemma QueueForgottenOnce(place: Vec2, elsewhere: Vec2)
    requires place != elsewhere
    ensures var walk := Issued(None, Move(Position(place)), false);
            var before := Run(NO_ORDERS, [Recorded(1, walk, false), Recorded(2, walk.(queue := true), false)]);
            var refused := Issued(None, Move(Position(elsewhere)), false);
            var after := Run(NO_ORDERS, [Recorded(1, walk, false), Recorded(2, walk.(queue := true), false),
                                         Recorded(3, refused, false), Rejected(3)]);
            !before.Repeats(walk) && before.StandingOrders() == [] &&
            after.Repeats(walk) && after.StandingOrders() == [walk] && before.Standing(None) == after.Standing(None)
  {
    var walk := Issued(None, Move(Position(place)), false);
    var first, second := Recorded(1, walk, false), Recorded(2, walk.(queue := true), false);
    var third := Recorded(3, Issued(None, Move(Position(elsewhere)), false), false);
    var all := [first, second, third, Rejected(3)];
    assert [first, second][..1] == [first] && [first][..0] == [];
    assert all[..3] == [first, second, third] && all[..3][..2] == [first, second];
    assert Run(NO_ORDERS, [first]) == Step(NO_ORDERS, first);
    assert Run(NO_ORDERS, [first, second]) == Step(Step(NO_ORDERS, first), second);
    assert Run(NO_ORDERS, [first, second, third]) == Step(Step(Step(NO_ORDERS, first), second), third);
    assert Run(NO_ORDERS, all) == Step(Step(Step(Step(NO_ORDERS, first), second), third), Rejected(3));
  }

  /** For any unit, what stood for it before an order and after its refusal is the same exactly when
      the order was that unit's own or another body's, changed nothing, or nothing stood. */
  lemma StandingAfterRefusal(l: Ledger, sequence: u32, issued: Issued, endsBody: bool, unit: Option<EntityId>)
    requires Inv(l) && l.Accepts(sequence)
    ensures l.Record(sequence, issued, endsBody).Reject(sequence).Standing(unit) == l.Standing(unit) <==>
            unit == issued.unit || BodyOf(unit) != BodyOf(issued.unit) || !Transitions(issued, endsBody) ||
              l.Standing(unit) == None
  {
  }

  // ---------- the history of a body ----------

  /** A body's transitions, newest last: the order's sequence, and what stood after it. A transition
      of another courier than the one that stands begins it anew, as the ledger does. */
  type History = seq<(u32, Option<Sent>)>

  function NextHistory(history: History, op: LedgerOp, b: nat): History {
    match op
    case Recorded(s, issued, ends) =>
      if BodyOf(issued.unit) != b || !Transitions(issued, ends) then history
      else (if OfAnotherUnit(history, issued.unit) then [] else history) + [(s, StandsAfter(s, issued))]
    case Rejected(s) => Without(history, s)
    case Cleared(unit) => if BodyOf(unit) == b then [] else history
  }

  function HistoryAfter(ops: seq<LedgerOp>, b: nat): History {
    if ops == [] then [] else NextHistory(HistoryAfter(ops[..|ops| - 1], b), ops[|ops| - 1], b)
  }

  predicate OfAnotherUnit(history: History, unit: Option<EntityId>) {
    history != [] && history[|history| - 1].1.Some? && history[|history| - 1].1.value.issued.unit != unit
  }

  function Without(history: History, sequence: u32): History {
    if history == [] then []
    else
      var last := history[|history| - 1];
      Without(history[..|history| - 1], sequence) + if last.0 == sequence then [] else [last]
  }

  function Newest(history: History): Option<Sent> { if history == [] then None else history[|history| - 1].1 }

  /** Sequences rise, and only an order the body can still undo, or one that never changed what
      stands for it, is refused. */
  ghost predicate InReach(ops: seq<LedgerOp>) {
    ops == [] ||
    (InReach(ops[..|ops| - 1]) &&
     var l := Run(NO_ORDERS, ops[..|ops| - 1]);
     Fits(l, HistoryAfter(ops[..|ops| - 1], 0), ops[|ops| - 1], 0) &&
       Fits(l, HistoryAfter(ops[..|ops| - 1], 1), ops[|ops| - 1], 1))
  }

  ghost predicate Fits(l: Ledger, history: History, op: LedgerOp, b: nat)
    requires |l.bodies| == 2 && b < 2
  {
    match op
    case Recorded(s, _, _) => l.Accepts(s)
    case Rejected(s) => l.bodies[b].Rejects(s) || !Holds(history, s)
    case Cleared(_) => true
  }

  ghost predicate Holds(history: History, sequence: u32) { exists i :: 0 <= i < |history| && history[i].0 == sequence }

  /** The body keeps the newest transition of the history, and the one before it while it can go back. */
  ghost predicate Keeps(body: BodyOrders, history: History) {
    body.current == Newest(history) &&
    (forall i, j :: 0 <= i < j < |history| ==> history[i].0 < history[j].0) &&
    (body.rollback.Some? ==>
       history != [] && body.rollback.value.sequence == history[|history| - 1].0 &&
       body.rollback.value.previous == Newest(history[..|history| - 1]))
  }

  lemma {:induction false} WithoutAbsent(history: History, s: u32)
    requires forall i :: 0 <= i < |history| ==> history[i].0 != s
    ensures Without(history, s) == history
  {
    if history != [] {
      WithoutAbsent(history[..|history| - 1], s);
    }
  }

  lemma WithoutOthers(history: History, s: u32)
    requires !Holds(history, s)
    ensures Without(history, s) == history
  {
    WithoutAbsent(history, s);
  }

  lemma WithoutNewest(history: History)
    requires history != []
    requires forall i, j :: 0 <= i < j < |history| ==> history[i].0 < history[j].0
    ensures Without(history, history[|history| - 1].0) == history[..|history| - 1]
  {
    WithoutOthers(history[..|history| - 1], history[|history| - 1].0);
  }

  lemma RejectKeeps(body: BodyOrders, history: History, s: u32)
    requires Keeps(body, history) && (body.Rejects(s) || !Holds(history, s))
    ensures Keeps(body.Reject(s), Without(history, s))
  {
    if body.Rejects(s) {
      WithoutNewest(history);
    } else {
      WithoutOthers(history, s);
    }
  }

  lemma TransitionKeeps(body: BodyOrders, history: History, s: u32, unit: Option<EntityId>, next: Option<Sent>)
    requires Keeps(body, history) && forall i :: 0 <= i < |history| ==> history[i].0 < s
    ensures Keeps(body.Transition(s, unit, next), (if OfAnotherUnit(history, unit) then [] else history) + [(s, next)])
  {
    var rest := if OfAnotherUnit(history, unit) then [] else history;
    assert (rest + [(s, next)])[..|rest|] == rest;
  }

  /** All a history's sequences were recorded. */
  ghost predicate Below(history: History, lastSeq: Option<u32>) {
    forall i :: 0 <= i < |history| ==> lastSeq.Some? && history[i].0 <= lastSeq.value
  }

  lemma {:induction false} WithoutBelow(history: History, s: u32, lastSeq: Option<u32>)
    requires Below(history, lastSeq)
    ensures Below(Without(history, s), lastSeq)
  {
    if history != [] {
      var rest := history[..|history| - 1];
      assert forall i :: 0 <= i < |rest| ==> rest[i] == history[i];
      WithoutBelow(rest, s, lastSeq);
    }
  }

  lemma RecordKeeps(l: Ledger, history: History, b: nat, s: u32, issued: Issued, ends: bool)
    requires |l.bodies| == 2 && b < 2 && Keeps(l.bodies[b], history) && Below(history, l.lastSeq) && l.Accepts(s)
    ensures Keeps(l.Record(s, issued, ends).bodies[b], NextHistory(history, Recorded(s, issued, ends), b))
    ensures Below(NextHistory(history, Recorded(s, issued, ends), b), Some(s))
  {
    RecordBelow(l, history, b, s, issued, ends);
    if BodyOf(issued.unit) == b && Transitions(issued, ends) {
      TransitionKeeps(l.bodies[b], history, s, issued.unit, StandsAfter(s, issued));
      hide Keeps, Below, BodyOrders.Transition, OfAnotherUnit;
    } else {
      hide Below;
      assert l.Record(s, issued, ends).bodies[b] in {l.bodies[b], l.bodies[b].(queued := true)};
    }
  }

  lemma RecordBelow(l: Ledger, history: History, b: nat, s: u32, issued: Issued, ends: bool)
    requires Below(history, l.lastSeq) && l.Accepts(s)
    ensures Below(NextHistory(history, Recorded(s, issued, ends), b), Some(s))
    ensures forall i :: 0 <= i < |history| ==> history[i].0 < s
  {
  }

  lemma RejectStepKeeps(l: Ledger, history: History, b: nat, s: u32)
    requires Inv(l) && b < 2 && Keeps(l.bodies[b], history) && Below(history, l.lastSeq)
    requires l.bodies[b].Rejects(s) || !Holds(history, s)
    ensures Keeps(l.Reject(s).bodies[b], Without(history, s)) && Below(Without(history, s), l.lastSeq)
  {
    hide Keeps, Below, Without, Holds;
    RejectKeeps(l.bodies[b], history, s);
    WithoutBelow(history, s, l.lastSeq);
    if l.bodies[b].Rejects(s) {
      RejectsOnOneBody(l, b, s);
    } else {
      hide Inv;
      assert l.Reject(s).bodies[b] == l.bodies[b];
    }
  }

  lemma StepKeeps(l: Ledger, history: History, op: LedgerOp, b: nat)
    requires Inv(l) && b < 2 && Keeps(l.bodies[b], history) && Below(history, l.lastSeq) && Fits(l, history, op, b)
    ensures Keeps(Step(l, op).bodies[b], NextHistory(history, op, b))
    ensures Below(NextHistory(history, op, b), Step(l, op).lastSeq)
  {
    match op
    case Recorded(s, issued, ends) =>
      RecordKeeps(l, history, b, s, issued, ends);
      hide Keeps, Below, Inv, NextHistory;
      assert Step(l, op) == l.Record(s, issued, ends) && l.Record(s, issued, ends).lastSeq == Some(s);
    case Rejected(s) =>
      RejectStepKeeps(l, history, b, s);
      hide Keeps, Below, Inv, Without;
    case Cleared(_) =>
  }

  lemma {:induction false} RunKeeps(ops: seq<LedgerOp>, b: nat)
    requires InReach(ops) && b < 2
    ensures Keeps(Run(NO_ORDERS, ops).bodies[b], HistoryAfter(ops, b))
    ensures Below(HistoryAfter(ops, b), Run(NO_ORDERS, ops).lastSeq)
  {
    if ops != [] {
      hide Keeps, Below, Inv, Fits, Step, NextHistory;
      var before := ops[..|ops| - 1];
      RunKeeps(before, b);
      FreshInv();
      RunKeepsInv(NO_ORDERS, before);
      StepKeeps(Run(NO_ORDERS, before), HistoryAfter(before, b), ops[|ops| - 1], b);
    }
  }

  lemma FreshInv()
    ensures Inv(NO_ORDERS)
  {
  }

  /** One level of undo answers for the whole history of the unit that stands: in every run whose
      refusals are in reach, what stands is the newest of its transitions never refused. */
  lemma StandingIsNewestSurvivor(ops: seq<LedgerOp>, unit: Option<EntityId>)
    requires InReach(ops)
    ensures var newest := Newest(HistoryAfter(ops, BodyOf(unit)));
            Run(NO_ORDERS, ops).Standing(unit) == if newest.Some? && newest.value.issued.unit == unit then newest
              else None
  {
    hide Below;
    RunKeeps(ops, BodyOf(unit));
  }

  // ---------- reconciling ----------

  /** A reconciled order still stands, for a body that lives, and follows nothing out of sight;
      reconciling it again in the same view changes nothing. */
  lemma ReconciledOnce(world: World, standing: Option<Sent>)
    requires standing.Some? ==> standing.value.issued.order.Stands()
    ensures var once := ReconcileStanding(world, standing);
            ReconcileStanding(world, once) == once &&
            (once.Some? ==>
               once.value.issued.order.Stands() && world.BodyAlive(once.value.issued.unit) &&
               once.value.issued.unit == standing.value.issued.unit && once.value.sequence == standing.value.sequence &&
               (!once.value.issued.order.MoveDirection? && once.value.issued.order.target.Entity? ==>
                  once.value.issued.order.target.id in world.inSight))
  {
  }

  /** Exactly what becomes of an order: it is dropped when its body does not live, or when it follows a
      unit out of sight whose last place the view before does not tell; following one whose place it
      tells, it goes to that place; otherwise it stays as it was. */
  lemma ReconciledExactly(world: World, sent: Sent)
    ensures var (unit, order) := (sent.issued.unit, sent.issued.order);
            var lives := if unit == None then world.heroAlive else world.courier == unit;
            var follows := (order.Move? || order.Attack?) && order.target.Entity? &&
              order.target.id !in world.inSight;
            var told := follows && order.target.id in world.remembered &&
              var seen := world.remembered[order.target.id];
              seen.lastSeen + 1 == world.tick && (seen.death.Some? ==> seen.death.value < seen.lastSeen);
            var once := ReconcileStanding(world, Some(sent));
            (once == None <==> !lives || (follows && !told)) &&
            (lives && !follows ==> once == Some(sent)) &&
            (lives && told ==>
               var place := Position(world.remembered[order.target.id].pos);
               once == Some(sent.(issued := sent.issued.(order := if order.Move? then Move(place) else Attack(place)))))
  {
  }

  /** Undoing a refused order and reconciling with the view may be done in either order. */
  lemma ReconcilingCommutes(l: Ledger, world: World, sequence: u32)
    requires |l.bodies| == 2
    ensures l.Reconciled(world).Reject(sequence) == l.Reject(sequence).Reconciled(world)
    ensures forall b :: 0 <= b < 2 ==>
              l.Reconciled(world).bodies[b].queued == l.bodies[b].queued &&
              (l.Reconciled(world).bodies[b].Rejects(sequence) <==> l.bodies[b].Rejects(sequence))
    ensures l.Reconciled(world).lastSeq == l.lastSeq
    ensures forall b :: 0 <= b < 2 ==>
              l.Reconciled(world).bodies[b].current == ReconcileStanding(world, l.bodies[b].current)
  {
    hide ReconcileStanding;
    var body := l.bodies[0];
    assert ReconciledBody(world, body).Reject(sequence) == ReconciledBody(world, body.Reject(sequence));
    body := l.bodies[1];
    assert ReconciledBody(world, body).Reject(sequence) == ReconciledBody(world, body.Reject(sequence));
  }

  /** So a reachable ledger's reconciled copy holds standing orders alone. */
  lemma ReconciledStands(l: Ledger, world: World)
    requires Inv(l)
    ensures Inv(l.Reconciled(world))
  {
  }
}
