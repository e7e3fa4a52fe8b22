/** What a session's orders, snapshots and connections do to the waits and mutes it tells of. */
module SessionClocks {
  import opened Machine
  import opened Session
  import opened SessionOrders
  import Confirming
  import Mutes
  import Orders
  import Readiness
  import Stacking

  /** An item used at once, whose wait is shared, makes its body wait from the tick the order lands;
      no other order changes a wait, and none that of another body. */
  lemma OrderStartsWait(s: State, issued: Orders.Issued, facts: Facts, body: Readiness.Body, wait: u32, now: u32)
    requires OrdersInv(s) && s.Give(issued, facts).1.Ok?
    requires s.current.Some? && s.current.value.tick + facts.lands + wait <= U32_MAX
    ensures var t := s.Give(issued, facts).0;
            var starts := issued.order.Use? && !issued.queue && facts.sharesWait &&
              (body == Readiness.Hero <==> issued.unit == None);
            t.Valid() && t.waits.WaitLeft(body, Some(wait), now, facts.lands) ==
              if starts then Some(Mutes.Left(s.current.value.tick + facts.lands + wait, now))
              else s.waits.WaitLeft(body, Some(wait), now, facts.lands)
  {
    GiveSets(s, issued, facts);
    hide State.Give, OrdersInv, Readiness.Waits.WaitLeft, Readiness.Waits.Landed, Readiness.Waits.Valid;
    var started := WaitStartedBy(issued, facts.sharesWait);
    if started.Some? && !issued.Waits() {
      Readiness.WaitRunsOut(s.waits, started.value, s.nextSeq + 1, s.current.value.tick, wait, now, facts.lands);
    }
    SameJournals(s, issued, facts);
    var waiting := if started.Some? && !issued.Waits()
      then s.waits.Start(started.value, s.nextSeq + 1, s.current.value.tick) else s.waits;
    SameWaits(s.Give(issued, facts).0.waits, waiting, body, wait, now, facts.lands);
  }

  lemma SameJournals(s: State, issued: Orders.Issued, facts: Facts)
    requires s.Valid() && s.current.Some? && s.nextSeq < U32_MAX
    ensures var started := WaitStartedBy(issued, facts.sharesWait);
            s.WaitsGiven(s.nextSeq + 1, issued, s.current.value, facts).journals ==
              (if started.Some? && !issued.Waits()
               then s.waits.Start(started.value, s.nextSeq + 1, s.current.value.tick) else s.waits).journals
  {
    hide Readiness.Waits.Start, Readiness.Waits.Landed, Readiness.Waits.Valid;
  }

  lemma SameWaits(a: Readiness.Waits, b: Readiness.Waits, body: Readiness.Body, wait: u32, now: u32, lands: u32)
    requires a.Valid() && b.Valid() && a.journals == b.journals
    ensures a.WaitLeft(body, Some(wait), now, lands) == b.WaitLeft(body, Some(wait), now, lands)
  {
  }

  /** Only a swap of the hero's own slots predicts anything of them, queued or not, and it is weighed
      against the newest snapshot from that snapshot's tick on. */
  lemma OrderStartsMutes(s: State, issued: Orders.Issued, facts: Facts)
    requires OrdersInv(s) && s.Give(issued, facts).1.Ok? && s.current.Some?
    ensures var t := s.Give(issued, facts).0;
            var view := s.current.value;
            t.waits.swaps ==
              if issued.unit == None && issued.order.SwapSlots? && issued.order.from < 15 && issued.order.to < 15
              then s.waits.StartMutes(facts.cat, s.nextSeq + 1,
                     Some(Readiness.Swap(issued.order.from, issued.order.to)), view.tick, facts.lands,
                     Readiness.Context(view.bag.slots, view.bag.atShop, s.confirmed.through)).swaps
              else s.waits.swaps
  {
    GiveSets(s, issued, facts);
    hide State.Give, OrdersInv;
    var started := WaitStartedBy(issued, facts.sharesWait);
    var waiting := if !issued.Waits() && started.Some?
      then s.waits.Start(started.value, s.nextSeq + 1, s.current.value.tick) else s.waits;
    assert waiting.swaps == s.waits.swaps;
    hide Readiness.Waits.Start, Readiness.Waits.StartMutes, Readiness.Waits.Valid;
    StackClocksAlone(facts.cat, waiting, s.waits, s.nextSeq + 1, SwapOf(issued), s.current.value.tick, facts.lands,
      ContextOf(s.current.value.bag, s.confirmed.through));
    NoSwapNoMutes(facts.cat, s.waits, s.nextSeq + 1, SwapOf(issued), s.current.value.tick, facts.lands,
      ContextOf(s.current.value.bag, s.confirmed.through));
  }

  lemma NoSwapNoMutes(cat: Stacking.Catalogue, w: Readiness.Waits, sequence: u32, swap: Option<Readiness.Swap>,
                      given: u32, lands: u32, context: Readiness.Context)
    requires w.Valid() && |context.slots| == 15
    ensures swap == None || swap.value.from >= 15 || swap.value.to >= 15 ==>
              w.StartMutes(cat, sequence, swap, given, lands, context) == w
  {
  }

  /** What a swap predicts is read off the slots alone. */
  lemma StackClocksAlone(cat: Stacking.Catalogue, a: Readiness.Waits, b: Readiness.Waits, sequence: u32,
                         swap: Option<Readiness.Swap>, given: u32, lands: u32, context: Readiness.Context)
    requires a.Valid() && b.Valid() && |context.slots| == 15 && a.swaps == b.swaps
    ensures a.StartMutes(cat, sequence, swap, given, lands, context).swaps ==
            b.StartMutes(cat, sequence, swap, given, lands, context).swaps
  {
    if swap.Some? && swap.value.from < 15 && swap.value.to < 15 {
      assert a.Predicted(swap.value.from, context) == b.Predicted(swap.value.from, context);
      assert a.Predicted(swap.value.to, context) == b.Predicted(swap.value.to, context);
      hide Readiness.Waits.Predicted;
      assert a.Landed(cat, swap.value, SatAdd32(given, lands), context) ==
        b.Landed(cat, swap.value, SatAdd32(given, lands), context);
      hide Readiness.Waits.Landed;
    }
  }

  /** On a connection already bound nothing changes; a new one awaits no order, has settled none, and no
      predicted swap outlives the change. Waits, orders and their numbers go on. */
  lemma BindForgets(s: State, player: nat)
    requires s.Valid()
    ensures var t := s.Bind(player);
            if s.confirmed.connection == Some(player) then t == s
            else t == s.(confirmed := t.confirmed, waits := t.waits) && t.waits.journals == s.waits.journals &&
                 t.confirmed.connection == Some(player) && t.confirmed.sent == [] && t.confirmed.through == 0 &&
                 forall slot :: 0 <= slot < 15 ==> t.waits.swaps[slot].CurrentEntry() == None
  {
  }

  /** A seat's snapshot settles what it says is settled, if that is of this connection, due by the
      snapshot's tick, and an order still awaited as it was sent; then no order up to it is awaited. */
  lemma SnapshotSettlesOrders(s: State, view: View)
    requires OrdersInv(s) && s.Take(Snapshot(view)).1.Ok?
    ensures var t := s.Take(Snapshot(view)).0;
            var settles := s.owner.Some? && view.settled.Some? && view.settled.value.seen.Some? &&
              view.settled.value.connection == s.confirmed.connection && view.settled.value.tick <= view.tick &&
              exists i :: 0 <= i < |s.confirmed.sent| &&
                s.confirmed.sent[i] == (view.settled.value.sequence, view.settled.value.seen.value);
            t.confirmed.through == (if settles then view.settled.value.sequence else s.confirmed.through) &&
            (settles ==> t.confirmed.through > s.confirmed.through) &&
            t.confirmed.connection == s.confirmed.connection &&
            forall request: Confirming.Request ::
              request in t.confirmed.sent <==> request in s.confirmed.sent && request.0 > t.confirmed.through
  {
    Confirming.SnapshotSettles(s.confirmed, s.nextSeq, if s.Strict() then view.settled else None, view.tick);
    hide Readiness.Waits.Synchronize, Readiness.Waits.Valid, Readiness.Below, SkipsFit, Orders.Inv, Confirming.Inv,
      Confirming.Beyond;
  }

  /** After a snapshot a slot whose swap is no longer awaited is told of as the snapshot shows it; one
      still awaited keeps its prediction, but at a shop no mute. Shared waits go on. */
  lemma SnapshotTellsMutes(s: State, view: View, slot: nat, now: u32)
    requires s.Valid() && s.Take(Snapshot(view)).1.Ok? && slot < 6
    ensures var t := s.Take(Snapshot(view)).0;
            var entry := s.waits.swaps[slot].CurrentEntry();
            var awaited := entry.Some? && entry.value.0 > t.confirmed.through;
            t.Valid() && t.waits.journals == s.waits.journals &&
            t.waits.MuteLeft(Readiness.Hero, slot, now) ==
              if !awaited then Some(Mutes.Left(view.bag.slots[slot].mutedUntil, now))
              else if view.bag.atShop then Some(Mutes.Left(view.tick, now))
              else s.waits.MuteLeft(Readiness.Hero, slot, now)
  {
    TakenSnapshot(s, view);
    hide State.Take, Readiness.Waits.MuteLeft, State.Valid;
    Mutes.SynchronizedMutes(s.waits, view.tick, ContextOf(view.bag, s.SettledBy(view).through), slot, now);
    hide Readiness.Waits.SyncedSlot;
  }

  lemma TakenSnapshot(s: State, view: View)
    requires s.Valid() && s.Take(Snapshot(view)).1.Ok?
    ensures var t := s.Take(Snapshot(view)).0;
            t.confirmed == s.SettledBy(view) &&
            t.waits == s.waits.Synchronize(view.tick, ContextOf(view.bag, s.SettledBy(view).through))
  {
    hide Readiness.Waits.Synchronize, Readiness.Waits.Valid, SkipsFit;
  }

  /** No other message, a refusal apart, touches the orders, the waits or what is awaited. */
  lemma OthersLeaveOrders(s: State, msg: Message)
    requires s.Valid() && !msg.Snapshot? && !msg.OrderRejected?
    ensures var t := s.Take(msg).0;
            t.ledger == s.ledger && t.waits == s.waits && t.confirmed == s.confirmed && t.current == s.current &&
            t.nextSeq == s.nextSeq && t.owner == s.owner && t.terms == s.terms && t.policy == s.policy
  {
    hide Readiness.Waits.Valid;
  }
}
