/** What a reader is told of the swap slots: where a swapped stack is, and how long it stays mute. */
module Mutes {
  import opened Machine
  import opened Stacking
  import opened TimerJournals
  import opened Readiness

  /** The time left of something that ends at a tick. */
  function Left(until: u32, now: u32): u32 { if now < until then until - now else 0 }

  /** A slot's prediction is of an order no snapshot has settled yet. */
  ghost predicate Standing(w: Waits, slot: nat, context: Context)
    requires w.Valid() && slot < SWAP_SLOTS
  {
    w.swaps[slot].CurrentEntry().Some? && w.swaps[slot].CurrentEntry().value.0 > context.confirmed
  }

  /** Only the hero's inventory mutes; where nothing was ever told of a slot, nothing is mute. */
  lemma MutesNothingElse(w: Waits, body: Body, slot: nat, now: u32)
    requires w.Valid()
    ensures w.MuteLeft(body, slot, now).Some? <==> body == Hero && slot < 6
    ensures body == Hero && slot < 6 && w.swaps[slot] == TimerJournals.Fresh() ==>
              w.MuteLeft(body, slot, now) == Some(0)
  {
  }

  /** An item with no shared wait owes none of a body's, and a body no order made wait owes nothing. */
  lemma WaitsNothingElse(w: Waits, body: Body, wait: Option<u32>, now: u32, lands: u32)
    requires w.Valid()
    ensures w.WaitLeft(body, wait, now, lands).Some? <==> wait.Some?
    ensures wait.Some? && w.journals == NoWaits().journals ==> w.WaitLeft(body, wait, now, lands) == Some(0)
  {
  }

  /** A snapshot's own clocks are told of every slot with no swap still awaited; an awaited one keeps
      its prediction, but for its mute, which a shop ends. */
  lemma SynchronizedMutes(w: Waits, tick: u32, context: Context, slot: nat, now: u32)
    requires w.Valid() && |context.slots| == SWAP_SLOTS && slot < 6
    ensures var left := w.Synchronize(tick, context).MuteLeft(Hero, slot, now);
            (!Standing(w, slot, context) ==> left == Some(Left(context.slots[slot].mutedUntil, now))) &&
            (Standing(w, slot, context) && !context.atShop ==> left == w.MuteLeft(Hero, slot, now)) &&
            (Standing(w, slot, context) && context.atShop ==> left == Some(Left(tick, now)))
  {
  }

  /** A slot is predicted as the newest swap still awaited left it, and otherwise as the snapshot shows
      it; so what a snapshot leaves readers told of its mute is what is predicted. */
  lemma PredictedReads(w: Waits, tick: u32, context: Context, slot: nat, now: u32)
    requires w.Valid() && |context.slots| == SWAP_SLOTS && slot < SWAP_SLOTS
    ensures w.Predicted(slot, context) ==
            if Standing(w, slot, context) then w.swaps[slot].CurrentEntry().value.1 else context.slots[slot]
    ensures slot < 6 && !context.atShop ==>
              w.Synchronize(tick, context).MuteLeft(Hero, slot, now) ==
                Some(Left(w.Predicted(slot, context).mutedUntil, now))
  {
    if slot < 6 {
      SynchronizedMutes(w, tick, context, slot, now);
    }
    hide Waits.Synchronize;
  }

  lemma PairRead(w: Waits, sequence: u32, slot0: nat, item0: SwapItem, slot1: nat, item1: SwapItem, slot: nat)
    requires w.Valid() && slot0 < SWAP_SLOTS && slot1 < SWAP_SLOTS && slot < SWAP_SLOTS
    ensures var after := w.PushSwap(slot0, sequence, item0).PushSwap(slot1, sequence, item1);
            after.swaps[slot].CurrentEntry() ==
            if slot == slot1 then Some((sequence, item1)) else if slot == slot0 then Some((sequence, item0))
              else w.swaps[slot].CurrentEntry()
  {
  }

  lemma PairPredicts(w: Waits, sequence: u32, slot0: nat, item0: SwapItem, slot1: nat, item1: SwapItem,
                     context: Context, slot: nat)
    requires w.Valid() && slot0 < SWAP_SLOTS && slot1 < SWAP_SLOTS && slot < SWAP_SLOTS == |context.slots|
    requires sequence > context.confirmed
    ensures var after := w.PushSwap(slot0, sequence, item0).PushSwap(slot1, sequence, item1);
            after.Predicted(slot, context) ==
            if slot == slot1 then item1 else if slot == slot0 then item0 else w.Predicted(slot, context)
  {
    PairRead(w, sequence, slot0, item0, slot1, item1, slot);
    hide Waits.PushSwap;
  }

  /** Whether the stacks of two slots join on a swap into the second. */
  ghost predicate Joins(cat: Catalogue, moved: Option<Stack>, displaced: Option<Stack>, to: nat) {
    moved.Some? && displaced.Some? && MergeRoom(cat, displaced.value, moved.value, to < 9) > 0
  }

  lemma LandedItems(cat: Catalogue, w: Waits, swap: Swap, now: u32, context: Context)
    requires w.Valid() && swap.from < SWAP_SLOTS && swap.to < SWAP_SLOTS == |context.slots|
    ensures var (one, other) := w.Landed(cat, swap, now, context);
            var (moved, displaced) := (w.Predicted(swap.from, context).item, w.Predicted(swap.to, context).item);
            if Joins(cat, moved, displaced, swap.to)
            then one.0 == swap.from && other.0 == swap.to && other.1.item.Some? &&
                 other.1.item.value.owner == displaced.value.owner &&
                 SlotContents(cat, other.1.item) + SlotContents(cat, one.1.item) ==
                   SlotContents(cat, displaced) + SlotContents(cat, moved)
            else one.0 == swap.to && other.0 == swap.from && one.1.item == moved && other.1.item == displaced
  {
    var (a, b) := (w.Predicted(swap.to, context), w.Predicted(swap.from, context));
    if a.MergeFrom(cat, b, swap.from, swap.to, now, context.atShop).Some? {
      PredictedMergeConserves(cat, a, b, swap.from, swap.to, now, context.atShop);
    }
    hide Waits.Predicted, MergeRoom, MergeCounts, SlotContents;
  }

  /** A swap is told of at once, in its two slots alone: unless the stacks join, each is then in the
      other's slot; if they do, no charge and no ward of the two is lost. */
  lemma SwapMoves(cat: Catalogue, w: Waits, sequence: u32, from: nat, to: nat, given: u32, lands: u32,
                  context: Context, other: nat)
    requires w.Valid() && |context.slots| == SWAP_SLOTS && sequence > context.confirmed
    requires from < SWAP_SLOTS && to < SWAP_SLOTS && from != to && other < SWAP_SLOTS
    ensures var after := w.StartMutes(cat, sequence, Some(Swap(from, to)), given, lands, context);
            var (moved, displaced) := (w.Predicted(from, context).item, w.Predicted(to, context).item);
            var (into, left) := (after.Predicted(to, context).item, after.Predicted(from, context).item);
            (if Joins(cat, moved, displaced, to)
             then into.Some? && into.value.owner == displaced.value.owner &&
                  SlotContents(cat, into) + SlotContents(cat, left) ==
                    SlotContents(cat, displaced) + SlotContents(cat, moved)
             else into == moved && left == displaced) &&
            (other != from && other != to ==> after.Predicted(other, context) == w.Predicted(other, context)) &&
            after.journals == w.journals
  {
    var now := SatAdd32(given, lands);
    var ((slot0, item0), (slot1, item1)) := w.Landed(cat, Swap(from, to), now, context);
    LandedItems(cat, w, Swap(from, to), now, context);
    hide Waits.Landed, Joins, SlotContents, Waits.Predicted;
    assert slot0 < SWAP_SLOTS && slot1 < SWAP_SLOTS;
    PairPredicts(w, sequence, slot0, item0, slot1, item1, context, from);
    PairPredicts(w, sequence, slot0, item0, slot1, item1, context, to);
    PairPredicts(w, sequence, slot0, item0, slot1, item1, context, other);
    assert w.PushSwap(slot0, sequence, item0).PushSwap(slot1, sequence, item1).journals == w.journals;
    hide Waits.PushSwap, Waits.Valid;
  }

  /** A stack out of its grace, taken out of the backpack into a free slot away from a shop, is mute for
      the full time from the tick the swap lands, or as long as it was; no other slot's mute changes. */
  lemma TakenOutIsMute(cat: Catalogue, w: Waits, sequence: u32, from: nat, to: nat, given: u32, lands: u32,
                       context: Context, now: u32, other: nat)
    requires w.Valid() && |context.slots| == SWAP_SLOTS && !context.atShop
    requires 6 <= from < 9 && to < 6 && given + lands + 180 <= U32_MAX
    requires w.Predicted(from, context).item.Some? && w.Predicted(to, context).item == None
    requires w.Predicted(from, context).graceUntil <= given + lands
    ensures var after := w.StartMutes(cat, sequence, Some(Swap(from, to)), given, lands, context);
            after.MuteLeft(Hero, to, now) ==
              Some(Max(Left(w.Predicted(from, context).mutedUntil, now), Left(given + lands + 180, now))) &&
            (other != to ==> after.MuteLeft(Hero, other, now) == w.MuteLeft(Hero, other, now))
  {
    var landing := SatAdd32(given, lands);
    var ((slot0, item0), (slot1, item1)) := w.Landed(cat, Swap(from, to), landing, context);
    PairRead(w, sequence, slot0, item0, slot1, item1, to);
    if other < SWAP_SLOTS {
      PairRead(w, sequence, slot0, item0, slot1, item1, other);
    }
    hide Waits.PushSwap;
  }

  /** Away from a shop: an empty slot keeps no mute. A stack keeps its mute unless it comes out of the
      backpack, the slots 6 to 8, into the inventory. Its first way into the backpack gives it the grace
      of 150 ticks, the only one; leaving spends what is left of it; other ways change no clock. */
  lemma LandsByPlace(a: SwapItem, from: nat, to: nat, now: u32)
    ensures var b := a.Land(from, to, now, false);
            var (inside, into) := (6 <= from <= 8, 6 <= to <= 8);
            b.item == a.item && b.applies == now &&
            (a.item == None ==> b.mutedUntil == now) &&
            (a.item.Some? && !(inside && to < 6) ==> b.mutedUntil == a.mutedUntil) &&
            (a.item.Some? && inside == into ==> b.graceUntil == a.graceUntil && b.used == a.used) &&
            (a.item.Some? && inside && !into ==> b.graceUntil == 0 && b.used == a.used) &&
            (a.item.Some? && !inside && into ==>
               b.used && b.graceUntil == if a.used then 0 else Min(now + 150, U32_MAX))
  {
  }

  /** At a shop a landing stack, and both halves of a merge, are mute no longer. */
  lemma ShopEndsMutes(cat: Catalogue, a: SwapItem, b: SwapItem, from: nat, to: nat, now: u32)
    requires a.item.Some?
    ensures a.Land(from, to, now, true).mutedUntil == now
    ensures match a.MergeFrom(cat, b, from, to, now, true)
            case Some((into, left)) => into.mutedUntil == now && left.mutedUntil == now
            case None => true
  {
  }

  /** Stacks that join keep the lock and the spent grace of either. A stack that grows keeps its
      own grace; one that becomes another item has no more of it than either stack brought. */
  lemma JoinedKeeps(cat: Catalogue, a: SwapItem, b: SwapItem, from: nat, to: nat, now: u32, atShop: bool)
    requires a.MergeFrom(cat, b, from, to, now, atShop).Some?
    ensures var (into, left) := a.MergeFrom(cat, b, from, to, now, atShop).value;
            into.item.Some? && (into.used <==> a.used || b.used) && left.used == b.used &&
            (into.item.value.locked <==> a.item.value.locked || b.item.value.locked) &&
            into.graceUntil <= a.graceUntil &&
            (into.item.value.counts.id == a.item.value.counts.id || !b.used ==> into.graceUntil == a.graceUntil) &&
            (into.item.value.counts.id != a.item.value.counts.id && b.used ==> into.graceUntil <= b.graceUntil) &&
            (left.item.Some? ==> left.graceUntil == b.graceUntil && left.item.value.locked == b.item.value.locked) &&
            (left.item == None ==> left.graceUntil == 0)
  {
    hide MergeRoom, MergeCounts;
  }

  /** Away from a shop what joins is mute as long as either was, and for the full time when it comes out
      of the backpack into the inventory past its grace; what is left stays as it was, and is not empty. */
  lemma JoinedMutes(cat: Catalogue, a: SwapItem, b: SwapItem, from: nat, to: nat, now: u32)
    requires a.MergeFrom(cat, b, from, to, now, false).Some?
    ensures var (into, left) := a.MergeFrom(cat, b, from, to, now, false).value;
            var outOfGrace := if 6 <= from <= 8 && to < 6 && b.graceUntil <= now then Min(now + 180, U32_MAX) else 0;
            into.mutedUntil == Max(Max(a.mutedUntil, b.mutedUntil), outOfGrace) && left.mutedUntil == b.mutedUntil &&
            (left.item.Some? ==> left.item.value.counts.charges > 0 || left.item.value.counts.sentries > 0)
  {
    hide MergeRoom, MergeCounts;
  }
}
