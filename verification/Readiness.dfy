/** readiness.rs: the waits a client predicts from its own orders, and rolls back with them. */
module Readiness {
  import opened Machine
  import opened Stacking
  import opened TimerJournals

  const INVENTORY_SLOTS: nat := 6
  const BACKPACK_SLOTS: nat := 3
  const SWAP_SLOTS: nat := TOWN_PORTAL_SLOT
  const BACKPACK_MUTE_TICKS: u32 := 180
  const BACKPACK_GRACE_TICKS: u32 := 150

  datatype Body = Hero | Courier

  function BodyIndex(body: Body): nat { if body.Hero? then 0 else 1 }

  predicate InBackpack(slot: nat) { INVENTORY_SLOTS <= slot < INVENTORY_SLOTS + BACKPACK_SLOTS }

  function MaxTick(a: u32, b: u32): u32 { Max(a, b) }

  /** A slot's stack as predicted, with the clocks a swap moves along with it. */
  datatype SwapItem = SwapItem(item: Option<Stack>, applies: u32, mutedUntil: u32, graceUntil: u32, used: bool)
  {
    /** The stack lands in another slot. */
    function Land(from: nat, to: nat, now: u32, atShop: bool): SwapItem {
      if item == None then this.(applies := now, mutedUntil := now)
      else
        var muted := if atShop then now else mutedUntil;
        if !InBackpack(from) && InBackpack(to) then
          SwapItem(item, now, muted, if used then 0 else SatAdd32(now, BACKPACK_GRACE_TICKS), true)
        else if InBackpack(from) && !InBackpack(to) then
          SwapItem(item, now,
                   if atShop then now
                   else if to >= INVENTORY_SLOTS || graceUntil > now then muted
                   else MaxTick(muted, SatAdd32(now, BACKPACK_MUTE_TICKS)),
                   0, used)
        else SwapItem(item, now, muted, graceUntil, used)
    }

    /** Two stacks the shared merge rule joins; absent, and nothing changed, where it does not.
        The stack itself, then what is left of the source. */
    function MergeFrom(cat: Catalogue, source: SwapItem, from: nat, to: nat, now: u32,
        atShop: bool): Option<(SwapItem, SwapItem)> {
      var combine := to < INVENTORY_SLOTS + BACKPACK_SLOTS;
      if item == None || source.item == None || MergeRoom(cat, item.value, source.item.value, combine) == 0 then None
      else
        var (into, left) := MergeCounts(cat, item.value, source.item.value, combine);
        var target := item.value.(counts := into, locked := item.value.locked || source.item.value.locked);
        var grace := if into.id != item.value.counts.id && source.used then Min(graceUntil, source.graceUntil)
          else graceUntil;
        var joined := MaxTick(mutedUntil, source.mutedUntil);
        var muted :=
          if atShop then now
          else if InBackpack(from) && to < INVENTORY_SLOTS && source.graceUntil <= now
            then MaxTick(joined, SatAdd32(now, BACKPACK_MUTE_TICKS))
          else joined;
        var rest := if left.charges > 0 || left.sentries > 0 then Some(source.item.value.(counts := left)) else None;
        Some((SwapItem(Some(target), now, muted, grace, used || source.used),
              SwapItem(rest, now, if atShop then now else source.mutedUntil,
                       if rest == None then 0 else source.graceUntil, source.used)))
    }
  }

  /** What the current snapshot says of the slots. */
  datatype Context = Context(slots: seq<SwapItem>, atShop: bool, confirmed: u32)

  /** A swap as the hero orders it; any other order mutes nothing. */
  datatype Swap = Swap(from: nat, to: nat)

  datatype Waits = Waits(journals: seq<Journal<u32>>, swaps: seq<Journal<SwapItem>>)
  {
    ghost predicate Valid() {
      |journals| == 2 && |swaps| == SWAP_SLOTS &&
      (forall i :: 0 <= i < 2 ==> journals[i].Valid()) && forall i :: 0 <= i < SWAP_SLOTS ==> swaps[i].Valid()
    }

    ghost predicate Fresh(sequence: u32)
      requires Valid()
    {
      (forall i :: 0 <= i < 2 ==> !journals[i].Holds(sequence)) && forall i ::
        0 <= i < SWAP_SLOTS ==> !swaps[i].Holds(sequence)
    }

    function Start(body: Body, sequence: u32, given: u32): (w: Waits)
      requires Valid()
      ensures w.Valid()
    {
      Waits(journals[BodyIndex(body) := journals[BodyIndex(body)].Push(sequence, given)], swaps)
    }

    function Predicted(slot: nat, context: Context): SwapItem
      requires Valid() && slot < SWAP_SLOTS == |context.slots|
    {
      match swaps[slot].CurrentEntry()
      case Some((sequence, item)) => if sequence > context.confirmed then item else context.slots[slot]
      case None => context.slots[slot]
    }

    /** The predicted stacks after a swap, each with the slot it is then in. */
    function Landed(cat: Catalogue, swap: Swap, now: u32, context: Context): ((nat, SwapItem), (nat, SwapItem))
      requires Valid() && swap.from < SWAP_SLOTS && swap.to < SWAP_SLOTS == |context.slots|
    {
      var moved, displaced := Predicted(swap.from, context), Predicted(swap.to, context);
      match displaced.MergeFrom(cat, moved, swap.from, swap.to, now, context.atShop)
      case Some((into, left)) => ((swap.from, left), (swap.to, into))
      case None => ((swap.to, moved.Land(swap.from, swap.to, now, context.atShop)),
                    (swap.from, displaced.Land(swap.to, swap.from, now, context.atShop)))
    }

    function PushSwap(slot: nat, sequence: u32, item: SwapItem): (w: Waits)
      requires Valid() && slot < SWAP_SLOTS
      ensures w.Valid()
    {
      Waits(journals, swaps[slot := swaps[slot].Push(sequence, item)])
    }

    function StartMutes(cat: Catalogue, sequence: u32, swap: Option<Swap>, given: u32, lands: u32,
        context: Context): (w: Waits)
      requires Valid() && |context.slots| == SWAP_SLOTS
      ensures w.Valid()
    {
      if swap == None || swap.value.from >= SWAP_SLOTS || swap.value.to >= SWAP_SLOTS then this
      else
        var ((slot0, item0), (slot1, item1)) := Landed(cat, swap.value, SatAdd32(given, lands), context);
        PushSwap(slot0, sequence, item0).PushSwap(slot1, sequence, item1)
    }

    function Reject(sequence: u32): (w: Waits)
      requires Valid()
      ensures w.Valid()
    {
      Waits([journals[0].Reject(sequence), journals[1].Reject(sequence)],
            seq(SWAP_SLOTS, i requires 0 <= i < SWAP_SLOTS && Valid() => swaps[i].Reject(sequence)))
    }

    function SyncedSlot(slot: nat, tick: u32, context: Context): Journal<SwapItem>
      requires Valid() && slot < SWAP_SLOTS == |context.slots|
    {
      match swaps[slot].CurrentEntry()
      case Some((sequence, _)) =>
        if sequence > context.confirmed then
          if context.atShop then swaps[slot].MapValues((item: SwapItem) => item.(mutedUntil := tick)) else swaps[slot]
        else TimerJournals.Fresh().Push(0, context.slots[slot])
      case None => TimerJournals.Fresh().Push(0, context.slots[slot])
    }

    function Synchronize(tick: u32, context: Context): (w: Waits)
      requires Valid() && |context.slots| == SWAP_SLOTS
      ensures w.Valid()
    {
      Waits(journals, seq(SWAP_SLOTS, i requires 0 <= i < SWAP_SLOTS && Valid() => SyncedSlot(i, tick, context)))
    }

    function MuteLeft(body: Body, slot: nat, now: u32): Option<u32>
      requires Valid()
    {
      if body != Hero || slot >= INVENTORY_SLOTS then None
      else match swaps[slot].Current()
           case Some(item) => Some(SatSub32(item.mutedUntil, now))
           case None => Some(0)
    }

    /** `wait` is the item table's shared wait of the item, absent for a wait of its own. */
    function WaitLeft(body: Body, wait: Option<u32>, now: u32, lands: u32): Option<u32>
      requires Valid()
    {
      match wait
      case None => None
      case Some(w) =>
        match journals[BodyIndex(body)].Current()
        case None => Some(0)
        case Some(tick) => Some(SatSub32(SatAdd32(SatAdd32(tick, lands), w), now))
    }
  }

  function NoWaits(): Waits { Waits(seq(2, _ => TimerJournals.Fresh()), seq(SWAP_SLOTS, _ => TimerJournals.Fresh())) }

  /** The waits as the session keeps them, and the identity that changes with them. */
  class LocalWaits {
    var journals: seq<Journal<u32>>
    var swaps: seq<Journal<SwapItem>>
    var revision: nat

    ghost function Now(): Waits reads this { Waits(journals, swaps) }

    constructor ()
      ensures Now() == NoWaits() && Now().Valid() && revision == 0
    {
      journals := seq(2, _ => TimerJournals.Fresh());
      swaps := seq(SWAP_SLOTS, _ => TimerJournals.Fresh());
      revision := 0;
    }

    method Start(body: Body, sequence: u32, given: u32)
      requires Now().Valid()
      modifies this
      ensures Now() == old(Now()).Start(body, sequence, given) && Now().Valid() && revision == old(revision) + 1
    {
      journals := journals[BodyIndex(body) := journals[BodyIndex(body)].Push(sequence, given)];
      revision := revision + 1;
    }

    method StartMutes(cat: Catalogue, sequence: u32, swap: Option<Swap>, given: u32, lands: u32, context: Context)
      requires Now().Valid() && |context.slots| == SWAP_SLOTS
      modifies this
      ensures Now() == old(Now()).StartMutes(cat, sequence, swap, given, lands, context) && Now().Valid()
      ensures revision == old(revision) + if swap.Some? && swap.value.from < SWAP_SLOTS && swap.value.to < SWAP_SLOTS
              then 1 else 0
    {
      if swap == None || swap.value.from >= SWAP_SLOTS || swap.value.to >= SWAP_SLOTS {
        return;
      }
      var was := Waits(journals, swaps);
      var ((slot0, item0), (slot1, item1)) := was.Landed(cat, swap.value, SatAdd32(given, lands), context);
      swaps := swaps[slot0 := swaps[slot0].Push(sequence, item0)];
      swaps := swaps[slot1 := swaps[slot1].Push(sequence, item1)];
      revision := revision + 1;
    }

    method Synchronize(tick: u32, context: Context)
      requires Now().Valid() && |context.slots| == SWAP_SLOTS
      modifies this
      ensures Now() == old(Now()).Synchronize(tick, context) && Now().Valid() && revision == old(revision) + 1
    {
      ghost var was := Now();
      for slot := 0 to SWAP_SLOTS
        invariant journals == was.journals && |swaps| == SWAP_SLOTS && revision == old(revision)
        invariant forall i :: 0 <= i < slot ==> swaps[i] == was.SyncedSlot(i, tick, context)
        invariant forall i :: slot <= i < SWAP_SLOTS ==> swaps[i] == was.swaps[i]
      {
        var journal := swaps[slot];
        var entry := journal.CurrentEntry();
        if entry.Some? && entry.value.0 > context.confirmed {
          if context.atShop {
            swaps := swaps[slot := journal.MapValues((item: SwapItem) => item.(mutedUntil := tick))];
          }
        } else {
          swaps := swaps[slot := TimerJournals.Fresh().Push(0, context.slots[slot])];
        }
      }
      revision := revision + 1;
    }

    /** A new connection counts its orders anew: every predicted swap goes, whether or not one stood. */
    method ClearSwapPredictions()
      requires Now().Valid()
      modifies this
      ensures Now() == Waits(old(journals), NoWaits().swaps) && Now().Valid()
      ensures revision == old(revision) + if old(swaps) == NoWaits().swaps then 0 else 1
    {
      var stands := false;
      for slot := 0 to SWAP_SLOTS
        invariant stands <==> exists i :: 0 <= i < slot && swaps[i] != TimerJournals.Fresh()
      {
        var journal := swaps[slot];
        stands := stands || journal.Current() != None;
      }
      if stands {
        swaps := seq(SWAP_SLOTS, _ => TimerJournals.Fresh());
        revision := revision + 1;
      }
    }

    method Reject(sequence: u32) returns (removed: bool)
      requires Now().Valid()
      modifies this
      ensures Now() == old(Now()).Reject(sequence) && Now().Valid()
      ensures removed <==> !old(Now()).Fresh(sequence)
      ensures revision == old(revision) + if removed then 1 else 0
    {
      ghost var was := Now();
      removed := journals[0].Holds(sequence) || journals[1].Holds(sequence);
      journals := [journals[0].Reject(sequence), journals[1].Reject(sequence)];
      for slot := 0 to SWAP_SLOTS
        invariant journals == [was.journals[0].Reject(sequence), was.journals[1].Reject(sequence)]
        invariant |swaps| == SWAP_SLOTS && revision == old(revision)
        invariant forall i :: 0 <= i < slot ==> swaps[i] == was.swaps[i].Reject(sequence)
        invariant forall i :: slot <= i < SWAP_SLOTS ==> swaps[i] == was.swaps[i]
        invariant removed <==> was.journals[0].Holds(sequence) || was.journals[1].Holds(sequence) ||
                               exists i :: 0 <= i < slot && was.swaps[i].Holds(sequence)
      {
        removed := removed || swaps[slot].Holds(sequence);
        swaps := swaps[slot := swaps[slot].Reject(sequence)];
      }
      if removed {
        revision := revision + 1;
      }
    }
  }

  // ---------- one order undone ----------

  /** Nothing a reader is told differs: the current entry of every journal is the same. */
  ghost predicate SameReadings(a: Waits, b: Waits)
    requires a.Valid() && b.Valid()
  {
    (forall i :: 0 <= i < 2 ==> a.journals[i].CurrentEntry() == b.journals[i].CurrentEntry()) &&
    forall i :: 0 <= i < SWAP_SLOTS ==> a.swaps[i].CurrentEntry() == b.swaps[i].CurrentEntry()
  }

  /** So every mute and every wait left reads the same. */
  lemma ReadingsTell(a: Waits, b: Waits, body: Body, slot: nat, wait: Option<u32>, now: u32, lands: u32)
    requires a.Valid() && b.Valid() && SameReadings(a, b)
    ensures a.MuteLeft(body, slot, now) == b.MuteLeft(body, slot, now)
    ensures a.WaitLeft(body, wait, now, lands) == b.WaitLeft(body, wait, now, lands)
  {
    assert a.journals[BodyIndex(body)].CurrentEntry() == b.journals[BodyIndex(body)].CurrentEntry();
  }

  lemma RejectKeepsOthers<T>(j: Journal<T>, sequence: u32)
    requires !j.Holds(sequence)
    ensures j.Reject(sequence) == j
  {
    KeepsOthers(j.kept, sequence);
  }

  /** Two pushes of one order into the same journal are undone together. */
  lemma TwoPushesUndone<T>(j: Journal<T>, s: u32, v: T, w: T)
    requires j.Valid() && !j.Holds(s)
    ensures j.Push(s, v).Push(s, w).Reject(s).CurrentEntry() == j.CurrentEntry()
  {
    hide Filter;
    var n := |j.kept|;
    var rest := if n < MAX_TIMER_HISTORY - 1 then j.kept else j.kept[n + 2 - MAX_TIMER_HISTORY..];
    TwoPushesKeep(j, s, v, w, rest);
    TwoPushesFiltered(rest, s, v, w);
  }

  lemma TwoPushesKeep<T>(j: Journal<T>, s: u32, v: T, w: T, rest: seq<Entry<T>>)
    requires j.Valid() && rest == if |j.kept| < MAX_TIMER_HISTORY - 1 then j.kept
             else j.kept[|j.kept| + 2 - MAX_TIMER_HISTORY..]
    ensures j.Push(s, v).Push(s, w).kept == rest + [(s, v)] + [(s, w)]
    ensures rest == [] ==> j.Push(s, v).Push(s, w).base == j.base && j.kept == []
  {
  }

  lemma TwoPushesFiltered<T>(rest: seq<Entry<T>>, s: u32, v: T, w: T)
    requires forall i :: 0 <= i < |rest| ==> rest[i].0 != s
    ensures Filter(rest + [(s, v)] + [(s, w)], s) == rest
  {
    hide Filter;
    KeepsOthers(rest, s);
    FilterSnoc(rest, (s, v), s);
    FilterSnoc(rest + [(s, v)], (s, w), s);
  }

  /** A fresh order's wait and a fresh swap's mutes, rejected, leave every reading as it was,
      even where they evicted an older entry. */
  lemma StartUndone(w: Waits, body: Body, sequence: u32, given: u32)
    requires w.Valid() && w.Fresh(sequence)
    ensures w.Start(body, sequence, given).Reject(sequence).Valid()
    ensures SameReadings(w.Start(body, sequence, given).Reject(sequence), w)
  {
    hide Filter;
    RejectChangesNothing(w, sequence);
    var i := BodyIndex(body);
    PushUndone(w.journals[i], sequence, given);
    var after := w.Start(body, sequence, given).Reject(sequence);
    assert after.swaps == w.Reject(sequence).swaps;
    assert after.journals[1 - i] == w.Reject(sequence).journals[1 - i];
  }

  lemma MutesUndone(cat: Catalogue, w: Waits, sequence: u32, swap: Option<Swap>, given: u32, lands: u32,
      context: Context)
    requires w.Valid() && w.Fresh(sequence) && |context.slots| == SWAP_SLOTS
    ensures w.StartMutes(cat, sequence, swap, given, lands, context).Valid()
    ensures w.StartMutes(cat, sequence, swap, given, lands, context).Reject(sequence).Valid()
    ensures SameReadings(w.StartMutes(cat, sequence, swap, given, lands, context).Reject(sequence), w)
  {
    if swap.Some? && swap.value.from < SWAP_SLOTS && swap.value.to < SWAP_SLOTS {
      hide Waits.Landed, Waits.PushSwap, Waits.Reject, SameReadings;
      var ((slot0, item0), (slot1, item1)) := w.Landed(cat, swap.value, SatAdd32(given, lands), context);
      PairUndone(w, sequence, slot0, item0, slot1, item1);
    } else {
      RejectChangesNothing(w, sequence);
    }
  }

  lemma RejectChangesNothing(w: Waits, sequence: u32)
    requires w.Valid() && w.Fresh(sequence)
    ensures w.Reject(sequence) == w
  {
    forall k | 0 <= k < SWAP_SLOTS
      ensures w.swaps[k].Reject(sequence) == w.swaps[k]
    {
      RejectKeepsOthers(w.swaps[k], sequence);
    }
    RejectKeepsOthers(w.journals[0], sequence);
    RejectKeepsOthers(w.journals[1], sequence);
  }

  lemma PairUndone(w: Waits, sequence: u32, slot0: nat, item0: SwapItem, slot1: nat, item1: SwapItem)
    requires w.Valid() && w.Fresh(sequence) && slot0 < SWAP_SLOTS && slot1 < SWAP_SLOTS
    ensures w.PushSwap(slot0, sequence, item0).PushSwap(slot1, sequence, item1).Valid()
    ensures w.PushSwap(slot0, sequence, item0).PushSwap(slot1, sequence, item1).Reject(sequence).Valid()
    ensures SameReadings(w.PushSwap(slot0, sequence, item0).PushSwap(slot1, sequence, item1).Reject(sequence), w)
  {
    hide Filter;
    var after := w.PushSwap(slot0, sequence, item0).PushSwap(slot1, sequence, item1);
    RejectChangesNothing(w, sequence);
    forall k | 0 <= k < SWAP_SLOTS
      ensures after.swaps[k].Reject(sequence).CurrentEntry() == w.swaps[k].CurrentEntry()
    {
      if k == slot0 && k == slot1 {
        TwoPushesUndone(w.swaps[k], sequence, item0, item1);
      } else if k == slot0 || k == slot1 {
        PushUndone(w.swaps[k], sequence, if k == slot0 then item0 else item1);
      } else {
        assert w.Reject(sequence).swaps[k] == w.swaps[k];
      }
    }
    assert after.Reject(sequence).journals == w.Reject(sequence).journals;
  }

  /** Once a snapshot has settled every swap its clocks are the snapshot's, and no order, whatever
      its number, is rejected into them again. */
  lemma SettledSwapsStay(w: Waits, tick: u32, context: Context, sequence: u32)
    requires w.Valid() && |context.slots| == SWAP_SLOTS && sequence > 0
    requires forall i ::
             0 <= i < SWAP_SLOTS ==>
             w.swaps[i].CurrentEntry().Some? ==> w.swaps[i].CurrentEntry().value.0 <= context.confirmed
    ensures var after := w.Synchronize(tick, context);
            after.Valid() && after.Reject(sequence).swaps == after.swaps &&
            forall i :: 0 <= i < SWAP_SLOTS ==> after.swaps[i].Current() == Some(context.slots[i])
  {
    var after := w.Synchronize(tick, context);
    hide Filter;
    forall i | 0 <= i < SWAP_SLOTS
      ensures after.swaps[i] == TimerJournals.Fresh().Push(0, context.slots[i]) &&
              after.swaps[i].Reject(sequence) == after.swaps[i]
    {
      RejectKeepsOthers(after.swaps[i], sequence);
    }
  }

  /** Every entry that can be rejected belongs to an order numbered so far. */
  ghost predicate JournalBelow<T>(j: Journal<T>, issued: u32) {
    forall i :: 0 <= i < |j.kept| ==> j.kept[i].0 <= issued
  }

  ghost predicate Below(w: Waits, issued: u32)
    requires w.Valid()
  {
    (forall i :: 0 <= i < 2 ==> JournalBelow(w.journals[i], issued)) &&
    forall i :: 0 <= i < SWAP_SLOTS ==> JournalBelow(w.swaps[i], issued)
  }

  lemma BelowIsFresh(w: Waits, issued: u32, sequence: u32)
    requires w.Valid() && Below(w, issued) && issued < sequence
    ensures w.Fresh(sequence)
  {
  }

  lemma {:induction false} FilterBelow<T>(entries: seq<Entry<T>>, sequence: u32, issued: u32)
    requires forall i :: 0 <= i < |entries| ==> entries[i].0 <= issued
    ensures forall i :: 0 <= i < |Filter(entries, sequence)| ==> Filter(entries, sequence)[i].0 <= issued
  {
    if entries != [] {
      FilterBelow(entries[..|entries| - 1], sequence, issued);
    }
  }

  lemma RejectBelow(w: Waits, sequence: u32, issued: u32)
    requires w.Valid() && Below(w, issued)
    ensures Below(w.Reject(sequence), issued)
  {
    hide Filter;
    forall i | 0 <= i < SWAP_SLOTS
      ensures JournalBelow(w.swaps[i].Reject(sequence), issued)
    {
      FilterBelow(w.swaps[i].kept, sequence, issued);
    }
    FilterBelow(w.journals[0].kept, sequence, issued);
    FilterBelow(w.journals[1].kept, sequence, issued);
  }

  lemma PushBelow<T>(j: Journal<T>, sequence: u32, value: T, issued: u32)
    requires j.Valid() && JournalBelow(j, issued) && sequence <= issued
    ensures JournalBelow(j.Push(sequence, value), issued)
  {
  }

  lemma StartBelow(w: Waits, body: Body, sequence: u32, given: u32, issued: u32)
    requires w.Valid() && Below(w, issued) && sequence <= issued
    ensures Below(w.Start(body, sequence, given), issued)
  {
    hide JournalBelow, Journal.Push;
    PushBelow(w.journals[BodyIndex(body)], sequence, given, issued);
  }

  lemma PushSwapBelow(w: Waits, slot: nat, sequence: u32, item: SwapItem, issued: u32)
    requires w.Valid() && Below(w, issued) && sequence <= issued && slot < SWAP_SLOTS
    ensures Below(w.PushSwap(slot, sequence, item), issued)
  {
    hide JournalBelow, Journal.Push;
    PushBelow(w.swaps[slot], sequence, item, issued);
  }

  lemma StartMutesBelow(cat: Catalogue, w: Waits, sequence: u32, swap: Option<Swap>, given: u32, lands: u32,
      context: Context, issued: u32)
    requires w.Valid() && Below(w, issued) && sequence <= issued && |context.slots| == SWAP_SLOTS
    ensures Below(w.StartMutes(cat, sequence, swap, given, lands, context), issued)
  {
    if swap.Some? && swap.value.from < SWAP_SLOTS && swap.value.to < SWAP_SLOTS {
      hide Waits.Landed, Waits.PushSwap, Below;
      var ((slot0, item0), (slot1, item1)) := w.Landed(cat, swap.value, SatAdd32(given, lands), context);
      assert slot0 < SWAP_SLOTS &&
        slot1 < SWAP_SLOTS by { LandedSlots(w, cat, swap.value, SatAdd32(given, lands), context); }
      PushSwapBelow(w, slot0, sequence, item0, issued);
      PushSwapBelow(w.PushSwap(slot0, sequence, item0), slot1, sequence, item1, issued);
    }
  }

  lemma LandedSlots(w: Waits, cat: Catalogue, swap: Swap, now: u32, context: Context)
    requires w.Valid() && swap.from < SWAP_SLOTS && swap.to < SWAP_SLOTS == |context.slots|
    ensures {w.Landed(cat, swap, now, context).0.0, w.Landed(cat, swap, now, context).1.0} == {swap.from, swap.to}
  {
    hide SwapItem.Land, SwapItem.MergeFrom, Waits.Predicted;
  }

  lemma SynchronizeBelow(w: Waits, tick: u32, context: Context, issued: u32)
    requires w.Valid() && Below(w, issued) && |context.slots| == SWAP_SLOTS
    ensures Below(w.Synchronize(tick, context), issued)
  {
    forall i | 0 <= i < SWAP_SLOTS
      ensures JournalBelow(w.SyncedSlot(i, tick, context), issued)
    {
      assert JournalBelow(w.swaps[i], issued);
    }
  }

  // ---------- whole runs ----------

  /** An order that starts a shared wait, and a refusal. */
  datatype WaitOp = Started(body: Body, sequence: u32, given: u32) | Refused(sequence: u32)

  function WaitsAfter(ops: seq<WaitOp>): (w: Waits)
    ensures w.Valid()
  {
    if ops == [] then NoWaits()
    else
      var w := WaitsAfter(ops[..|ops| - 1]);
      match ops[|ops| - 1]
      case Started(body, s, given) => w.Start(body, s, given)
      case Refused(s) => w.Reject(s)
  }

  /** No order is refused once the wait fallen back on is its own. */
  ghost predicate Timely(ops: seq<WaitOp>) {
    ops == [] ||
    (Timely(ops[..|ops| - 1]) &&
     (ops[|ops| - 1].Refused? ==> InReach(WaitsAfter(ops[..|ops| - 1]), ops[|ops| - 1].sequence)))
  }

  ghost predicate InReach(w: Waits, sequence: u32)
    requires w.Valid()
  {
    !w.journals[0].Evicted(sequence) && !w.journals[1].Evicted(sequence)
  }

  /** The starts never refused later, as if no refused order had been given. */
  function Survivors(ops: seq<WaitOp>): seq<WaitOp> {
    if ops == [] then []
    else
      var rest := Survivors(ops[..|ops| - 1]);
      match ops[|ops| - 1]
      case Started(_, _, _) => rest + [ops[|ops| - 1]]
      case Refused(s) => WithoutOrder(rest, s)
  }

  function WithoutOrder(ops: seq<WaitOp>, sequence: u32): seq<WaitOp> {
    if ops == [] then []
    else
      var last := ops[|ops| - 1];
      WithoutOrder(ops[..|ops| - 1], sequence) + if last.sequence == sequence then [] else [last]
  }

  /** What of a run reaches the journal of one body. */
  function OfBody(ops: seq<WaitOp>, body: Body): seq<Op<u32>> {
    if ops == [] then []
    else
      var rest := OfBody(ops[..|ops| - 1], body);
      match ops[|ops| - 1]
      case Started(b, s, given) => if b == body then rest + [Op.Push(s, given)] else rest
      case Refused(s) => rest + [Op.Reject(s)]
  }

  lemma {:induction false} JournalOfBody(ops: seq<WaitOp>, body: Body)
    ensures WaitsAfter(ops).journals[BodyIndex(body)] == JournalAfter(OfBody(ops, body))
    ensures Timely(ops) ==> InWindow(OfBody(ops, body))
  {
    if ops != [] {
      var rest := ops[..|ops| - 1];
      JournalOfBody(rest, body);
      var before, now := OfBody(rest, body), OfBody(ops, body);
      assert now == before || (now[..|now| - 1] == before && now != []);
    }
  }

  lemma {:induction false} StartsAreTimely(ops: seq<WaitOp>)
    requires forall i :: 0 <= i < |ops| ==> ops[i].Started?
    ensures Timely(ops)
  {
    if ops != [] {
      StartsAreTimely(ops[..|ops| - 1]);
    }
  }

  lemma {:induction false} WithoutOrderStarts(ops: seq<WaitOp>, s: u32)
    requires forall i :: 0 <= i < |ops| ==> ops[i].Started?
    ensures forall i :: 0 <= i < |WithoutOrder(ops, s)| ==> WithoutOrder(ops, s)[i].Started?
  {
    if ops != [] {
      WithoutOrderStarts(ops[..|ops| - 1], s);
    }
  }

  lemma {:induction false} SurvivorsStart(ops: seq<WaitOp>)
    ensures forall i :: 0 <= i < |Survivors(ops)| ==> Survivors(ops)[i].Started?
  {
    if ops != [] {
      SurvivorsStart(ops[..|ops| - 1]);
      if ops[|ops| - 1].Refused? {
        WithoutOrderStarts(Survivors(ops[..|ops| - 1]), ops[|ops| - 1].sequence);
      }
    }
  }

  /** Leaving an order out of a run of starts leaves its entries out of the log. */
  lemma {:induction false} LogWithoutOrder(ops: seq<WaitOp>, body: Body, s: u32)
    requires forall i :: 0 <= i < |ops| ==> ops[i].Started?
    ensures LogAfter(OfBody(WithoutOrder(ops, s), body)) == Filter(LogAfter(OfBody(ops, body)), s)
  {
    if ops != [] {
      var rest, last := ops[..|ops| - 1], ops[|ops| - 1];
      LogWithoutOrder(rest, body, s);
      var left := WithoutOrder(rest, s);
      assert WithoutOrder(ops, s) == if last.sequence == s then left else left + [last];
      assert ops == rest + [last];
      hide WithoutOrder, OfBody, LogAfter;
      OfBodyStep(left, body, last);
      OfBodyStep(rest, body, last);
      FilterSnoc(LogAfter(OfBody(rest, body)), (last.sequence, last.given), s);
    }
  }

  lemma OfBodyStep(ops: seq<WaitOp>, body: Body, last: WaitOp)
    requires last.Started?
    ensures LogAfter(OfBody(ops + [last], body)) ==
            LogAfter(OfBody(ops, body)) + if last.body == body then [(last.sequence, last.given)] else []
  {
    assert (ops + [last])[..|ops|] == ops;
    var before := OfBody(ops, body);
    assert (before + [Op<u32>.Push(last.sequence, last.given)])[..|before|] == before;
    assert LogAfter(before) + [] == LogAfter(before);
  }

  lemma {:induction false} SameLog(ops: seq<WaitOp>, body: Body)
    ensures LogAfter(OfBody(ops, body)) == LogAfter(OfBody(Survivors(ops), body))
  {
    if ops != [] {
      var rest, last := ops[..|ops| - 1], ops[|ops| - 1];
      SameLog(rest, body);
      SurvivorsStart(rest);
      match last
      case Started(_, _, _) =>
        OfBodyStep(rest, body, last);
        OfBodyStep(Survivors(rest), body, last);
        assert ops == rest + [last];
      case Refused(s) =>
        LogWithoutOrder(Survivors(rest), body, s);
        var before := OfBody(rest, body);
        assert (before + [Op<u32>.Reject(s)])[..|before|] == before;
    }
  }

  /** Over every run, the wait a body owes is that of the run without the refused orders. */
  lemma RefusedOrdersLeaveNoWait(ops: seq<WaitOp>, body: Body, wait: Option<u32>, now: u32, lands: u32)
    requires Timely(ops)
    ensures WaitsAfter(ops).WaitLeft(body, wait, now, lands) ==
            WaitsAfter(Survivors(ops)).WaitLeft(body, wait, now, lands)
  {
    SurvivorsStart(ops);
    StartsAreTimely(Survivors(ops));
    SameLog(ops, body);
    JournalOfBody(ops, body);
    JournalOfBody(Survivors(ops), body);
    CurrentIsLastSurvivor(OfBody(ops, body));
    CurrentIsLastSurvivor(OfBody(Survivors(ops), body));
  }

  /** A fresh order's shared wait runs from the tick it lands, for its own body alone. */
  lemma WaitRunsOut(w: Waits, body: Body, sequence: u32, given: u32, wait: u32, now: u32, lands: u32)
    requires w.Valid() && given + lands + wait <= U32_MAX
    ensures var started := w.Start(body, sequence, given);
            (started.WaitLeft(body, Some(wait), now, lands) == Some(0) <==> now >= given + lands + wait) &&
            (now < given + lands + wait ==>
              started.WaitLeft(body, Some(wait), now, lands) == Some(given + lands + wait - now)) &&
            forall other: Body :: other != body ==>
              started.WaitLeft(other, Some(wait), now, lands) == w.WaitLeft(other, Some(wait), now, lands)
  {
  }

  // ---------- what a swap keeps ----------

  /** Where a stack goes, when, and whether at a shop. */
  datatype Move = Move(from: nat, to: nat, now: u32, atShop: bool)

  function Moved(stack: SwapItem, moves: seq<Move>): SwapItem {
    if moves == [] then stack
    else
      var last := moves[|moves| - 1];
      Moved(stack, moves[..|moves| - 1]).Land(last.from, last.to, last.now, last.atShop)
  }

  predicate Enters(move: Move) { !InBackpack(move.from) && InBackpack(move.to) }

  /** Taken out into the inventory, away from a shop. */
  predicate Returns(move: Move) { InBackpack(move.from) && move.to < INVENTORY_SLOTS && !move.atShop }

  /** From one backpack slot to another, away from a shop. */
  predicate Stays(move: Move) { InBackpack(move.from) && InBackpack(move.to) && !move.atShop }

  lemma {:induction false} StaysKeep(stack: SwapItem, inside: seq<Move>)
    requires stack.item.Some? && forall i :: 0 <= i < |inside| ==> Stays(inside[i])
    ensures var after := Moved(stack, inside);
            after.item == stack.item && after.mutedUntil == stack.mutedUntil &&
            after.graceUntil == stack.graceUntil && after.used == stack.used
  {
    if inside != [] {
      StaysKeep(stack, inside[..|inside| - 1]);
    }
  }

  lemma {:induction false} MovedJoins(stack: SwapItem, first: seq<Move>, rest: seq<Move>)
    ensures Moved(stack, first + rest) == Moved(Moved(stack, first), rest)
  {
    if rest == [] {
      assert first + rest == first;
    } else {
      assert (first + rest)[..|first + rest| - 1] == first + rest[..|rest| - 1];
      MovedJoins(stack, first, rest[..|rest| - 1]);
    }
  }

  /** A stack's first stay in the backpack, however it is moved about there: one that ends within the
      grace leaves its mute as it was, and a longer one mutes it for the full time at least. */
  lemma FirstStay(stack: SwapItem, enter: Move, inside: seq<Move>, leave: Move)
    requires stack.item.Some? && !stack.used && Enters(enter) && !enter.atShop && Returns(leave)
    requires forall i :: 0 <= i < |inside| ==> Stays(inside[i])
    requires enter.now + BACKPACK_GRACE_TICKS <= U32_MAX && leave.now + BACKPACK_MUTE_TICKS <= U32_MAX
    ensures var out := Moved(stack, [enter] + inside + [leave]);
            out.mutedUntil == (if leave.now < enter.now + BACKPACK_GRACE_TICKS then stack.mutedUntil
                               else Max(stack.mutedUntil, leave.now + BACKPACK_MUTE_TICKS)) &&
            out.used && out.graceUntil == 0 && out.item == stack.item
  {
    assert [enter][..0] == [] && [leave][..0] == [];
    var entered := stack.Land(enter.from, enter.to, enter.now, enter.atShop);
    assert Moved(stack, [enter]) == entered;
    MovedJoins(stack, [enter], inside);
    MovedJoins(stack, [enter] + inside, [leave]);
    StaysKeep(entered, inside);
    var stayed := Moved(entered, inside);
    assert Moved(stayed, [leave]) == stayed.Land(leave.from, leave.to, leave.now, leave.atShop);
  }

  /** There is no second grace: once spent, none comes back on any moves, and every return to the
      inventory away from a shop mutes the stack for the full time. */
  lemma {:induction false} OneGrace(stack: SwapItem, moves: seq<Move>)
    requires stack.item.Some? && stack.used && stack.graceUntil == 0
    ensures Moved(stack, moves).item == stack.item && Moved(stack, moves).used && Moved(stack, moves).graceUntil == 0
    ensures moves != [] && Returns(moves[|moves| - 1]) ==>
              Moved(stack, moves).mutedUntil >= SatAdd32(moves[|moves| - 1].now, BACKPACK_MUTE_TICKS)
  {
    if moves != [] {
      OneGrace(stack, moves[..|moves| - 1]);
    }
  }

  /** Away from a shop no landing and no merge ends a stack's mute earlier than it was due. */
  lemma MutesOnlyGrow(cat: Catalogue, a: SwapItem, b: SwapItem, from: nat, to: nat, now: u32)
    requires a.item.Some?
    ensures a.Land(from, to, now, false).mutedUntil >= a.mutedUntil
    ensures match a.MergeFrom(cat, b, from, to, now, false)
            case Some((into, left)) =>
              into.mutedUntil >= a.mutedUntil && into.mutedUntil >= b.mutedUntil && left.mutedUntil == b.mutedUntil
            case None => true
    // Joining a stack of the inventory from the backpack, out of grace, mutes it as landing there would.
    ensures match a.MergeFrom(cat, b, from, to, now, false)
            case Some((into, _)) =>
              InBackpack(from) && to < INVENTORY_SLOTS && b.graceUntil <= now ==>
                into.mutedUntil >= b.Land(from, to, now, false).mutedUntil >= SatAdd32(now, BACKPACK_MUTE_TICKS)
            case None => true
  {
  }

  /** The predicted merge loses no charge and no ward, and keeps a left-over stack only when it
      still holds some. */
  lemma PredictedMergeConserves(cat: Catalogue, a: SwapItem, b: SwapItem, from: nat, to: nat, now: u32, atShop: bool)
    requires a.MergeFrom(cat, b, from, to, now, atShop).Some?
    ensures var (into, left) := a.MergeFrom(cat, b, from, to, now, atShop).value;
            SlotContents(cat, into.item) + SlotContents(cat, left.item) == SlotContents(cat, a.item) +
              SlotContents(cat, b.item)
  {
    var combine := to < INVENTORY_SLOTS + BACKPACK_SLOTS;
    MergeConserves(cat, a.item.value, b.item.value, combine);
    var left := MergeCounts(cat, a.item.value, b.item.value, combine).1;
    if left.charges == 0 && left.sentries == 0 {
      assert Contents(cat, left) == multiset{};
    }
  }
}
