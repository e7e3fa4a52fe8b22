/** Runs of predicted swaps some of which are refused: what is left of them in the mutes. */
module SwapRuns {
  import opened Items
  import opened Machine
  import opened Readiness
  import opened Stacking
  import opened TimerJournals

  /** A swap given, as its mutes are started, and a refusal. No snapshot comes between. */
  datatype SwapOp =
    | Given(cat: Catalogue, sequence: u32, swap: Swap, given: u32, lands: u32, context: Context)
    | Refused(sequence: u32)
  {
    predicate Fits() {
      Given? ==> swap.from < SWAP_SLOTS && swap.to < SWAP_SLOTS && |context.slots| == SWAP_SLOTS
    }
  }

  ghost predicate AllFit(ops: seq<SwapOp>) { forall i :: 0 <= i < |ops| ==> ops[i].Fits() }

  function Next(w: Waits, op: SwapOp): (after: Waits)
    requires w.Valid() && op.Fits()
    ensures after.Valid()
  {
    match op
    case Given(cat, s, swap, given, lands, context) => w.StartMutes(cat, s, Some(swap), given, lands, context)
    case Refused(s) => w.Reject(s)
  }

  function After(ops: seq<SwapOp>): (w: Waits)
    requires AllFit(ops)
    ensures w.Valid()
  {
    if ops == [] then NoWaits() else Next(After(ops[..|ops| - 1]), ops[|ops| - 1])
  }

  /** The two stacks a swap lands, in the order they are noted. */
  function Landing(w: Waits, op: SwapOp): ((nat, SwapItem), (nat, SwapItem))
    requires w.Valid() && op.Given? && op.Fits()
  {
    w.Landed(op.cat, op.swap, SatAdd32(op.given, op.lands), op.context)
  }

  /** Those of them one slot is given. */
  function Noted(w: Waits, op: SwapOp, slot: nat): seq<Entry<SwapItem>>
    requires w.Valid() && op.Given? && op.Fits()
  {
    var ((slot0, item0), (slot1, item1)) := Landing(w, op);
    (if slot0 == slot then [(op.sequence, item0)] else []) + if slot1 == slot then [(op.sequence, item1)] else []
  }

  /** Every stack noted for a slot and not rejected since, however many. */
  function SlotLog(ops: seq<SwapOp>, slot: nat): seq<Entry<SwapItem>>
    requires AllFit(ops)
  {
    if ops == [] then []
    else
      var log := SlotLog(ops[..|ops| - 1], slot);
      match ops[|ops| - 1]
      case Given(_, _, _, _, _, _) => log + Noted(After(ops[..|ops| - 1]), ops[|ops| - 1], slot)
      case Refused(s) => Filter(log, s)
  }

  /** No order is refused once a slot falls back on its stack. */
  ghost predicate Timely(ops: seq<SwapOp>)
    requires AllFit(ops)
  {
    ops == [] ||
    (Timely(ops[..|ops| - 1]) &&
     (ops[|ops| - 1].Refused? ==> InReach(After(ops[..|ops| - 1]), ops[|ops| - 1].sequence)))
  }

  ghost predicate InReach(w: Waits, sequence: u32)
    requires w.Valid()
  {
    forall k :: 0 <= k < SWAP_SLOTS ==> !w.swaps[k].Evicted(sequence)
  }

  lemma NotedStands(w: Waits, op: SwapOp, slot: nat, log: seq<Entry<SwapItem>>)
    requires w.Valid() && op.Given? && op.Fits() && slot < SWAP_SLOTS && Stands(w.swaps[slot], log)
    ensures Stands(Next(w, op).swaps[slot], log + Noted(w, op, slot))
  {
    hide Stands, Waits.Landed, Journal.Push;
    var ((slot0, item0), (slot1, item1)) := Landing(w, op);
    LandedSlots(w, op.cat, op.swap, SatAdd32(op.given, op.lands), op.context);
    assert slot0 in {slot0, slot1} && slot1 in {slot0, slot1};
    var j, first, second := w.swaps[slot], (op.sequence, item0), (op.sequence, item1);
    PushStands(j, log, op.sequence, item0);
    PushStands(j, log, op.sequence, item1);
    PushStands(j.Push(op.sequence, item0), log + [first], op.sequence, item1);
    assert Next(w, op) == w.PushSwap(slot0, op.sequence, item0).PushSwap(slot1, op.sequence, item1);
    if slot0 == slot && slot1 == slot {
      assert log + Noted(w, op, slot) == log + [first] + [second];
    } else if slot0 == slot {
      assert log + Noted(w, op, slot) == log + [first];
    } else if slot1 == slot {
      assert log + Noted(w, op, slot) == log + [second];
    } else {
      assert log + Noted(w, op, slot) == log;
    }
  }

  lemma {:induction false} SlotStands(ops: seq<SwapOp>, slot: nat)
    requires AllFit(ops) && Timely(ops) && slot < SWAP_SLOTS
    ensures Stands(After(ops).swaps[slot], SlotLog(ops, slot))
  {
    if ops != [] {
      var before := ops[..|ops| - 1];
      SlotStands(before, slot);
      match ops[|ops| - 1]
      case Given(_, _, _, _, _, _) => NotedStands(After(before), ops[|ops| - 1], slot, SlotLog(before, slot));
      case Refused(s) => RejectStands(After(before).swaps[slot], SlotLog(before, slot), s);
    }
  }

  // ---------- the run without the refused swaps ----------

  function RefusedIn(ops: seq<SwapOp>): set<u32> {
    if ops == [] then {}
    else RefusedIn(ops[..|ops| - 1]) + if ops[|ops| - 1].Refused? then {ops[|ops| - 1].sequence} else {}
  }

  /** The swaps given, but for those of `gone`. */
  function Kept(ops: seq<SwapOp>, gone: set<u32>): seq<SwapOp> {
    if ops == [] then []
    else
      var last := ops[|ops| - 1];
      Kept(ops[..|ops| - 1], gone) + if last.Given? && last.sequence !in gone then [last] else []
  }

  function Drop(entries: seq<Entry<SwapItem>>, gone: set<u32>): seq<Entry<SwapItem>> {
    if entries == [] then []
    else
      var last := entries[|entries| - 1];
      Drop(entries[..|entries| - 1], gone) + if last.0 in gone then [] else [last]
  }

  ghost predicate Clean(entries: seq<Entry<SwapItem>>, gone: set<u32>) {
    forall i :: 0 <= i < |entries| ==> entries[i].0 !in gone
  }

  /** No kept swap is worked out from a stack of an order refused later: while it is given, its two
      slots hold none. And no number is given again once refused. */
  ghost predicate Undisturbed(ops: seq<SwapOp>, gone: set<u32>)
    requires AllFit(ops)
  {
    ops == [] ||
    (var before, last := ops[..|ops| - 1], ops[|ops| - 1];
     Undisturbed(before, gone) &&
     match last
     case Refused(s) => s in gone
     case Given(_, s, swap, _, _, _) =>
       s !in RefusedIn(before) &&
       (s !in gone ==> Clean(SlotLog(before, swap.from), gone) && Clean(SlotLog(before, swap.to), gone)))
  }

  lemma {:induction false} DropClean(entries: seq<Entry<SwapItem>>, gone: set<u32>)
    requires Clean(entries, gone)
    ensures Drop(entries, gone) == entries
  {
    if entries != [] {
      var rest := entries[..|entries| - 1];
      assert forall i :: 0 <= i < |rest| ==> rest[i] == entries[i];
      DropClean(rest, gone);
    }
  }

  lemma {:induction false} DropJoins(a: seq<Entry<SwapItem>>, b: seq<Entry<SwapItem>>, gone: set<u32>)
    ensures Drop(a + b, gone) == Drop(a, gone) + Drop(b, gone)
  {
    if b == [] {
      assert a + b == a;
    } else {
      assert (a + b)[..|a + b| - 1] == a + b[..|b| - 1];
      DropJoins(a, b[..|b| - 1], gone);
    }
  }

  lemma {:induction false} DropFiltered(entries: seq<Entry<SwapItem>>, s: u32, gone: set<u32>)
    requires s in gone
    ensures Drop(Filter(entries, s), gone) == Drop(entries, gone)
  {
    if entries != [] {
      var rest, last := entries[..|entries| - 1], entries[|entries| - 1];
      DropFiltered(rest, s, gone);
      var one: seq<Entry<SwapItem>> := if last.0 == s then [] else [last];
      assert Filter(entries, s) == Filter(rest, s) + one;
      DropJoins(Filter(rest, s), one, gone);
      assert [last][..0] == [];
    }
  }

  lemma NotedDropped(w: Waits, op: SwapOp, slot: nat, gone: set<u32>)
    requires w.Valid() && op.Given? && op.Fits()
    ensures Drop(Noted(w, op, slot), gone) == if op.sequence in gone then [] else Noted(w, op, slot)
  {
    hide Waits.Landed;
    var noted := Noted(w, op, slot);
    if op.sequence !in gone {
      DropClean(noted, gone);
    } else {
      DropAll(noted, gone);
    }
  }

  lemma {:induction false} DropAll(entries: seq<Entry<SwapItem>>, gone: set<u32>)
    requires forall i :: 0 <= i < |entries| ==> entries[i].0 in gone
    ensures Drop(entries, gone) == []
  {
    if entries != [] {
      DropAll(entries[..|entries| - 1], gone);
    }
  }

  /** A swap lands the same from the same predictions of its two slots. */
  lemma LandsAlike(v: Waits, w: Waits, op: SwapOp)
    requires v.Valid() && w.Valid() && op.Given? && op.Fits()
    requires v.swaps[op.swap.from].CurrentEntry() == w.swaps[op.swap.from].CurrentEntry()
    requires v.swaps[op.swap.to].CurrentEntry() == w.swaps[op.swap.to].CurrentEntry()
    ensures Landing(v, op) == Landing(w, op)
  {
    assert v.Predicted(op.swap.from, op.context) == w.Predicted(op.swap.from, op.context);
    assert v.Predicted(op.swap.to, op.context) == w.Predicted(op.swap.to, op.context);
    hide Waits.Predicted, SwapItem.MergeFrom, SwapItem.Land;
  }

  lemma {:induction false} KeptFit(ops: seq<SwapOp>, gone: set<u32>)
    requires AllFit(ops)
    ensures AllFit(Kept(ops, gone)) && Timely(Kept(ops, gone))
    ensures forall i :: 0 <= i < |Kept(ops, gone)| ==> Kept(ops, gone)[i].Given?
  {
    if ops != [] {
      var before, kept := ops[..|ops| - 1], Kept(ops, gone);
      KeptFit(before, gone);
      assert kept != Kept(before, gone) ==> kept[..|kept| - 1] == Kept(before, gone);
    }
  }

  /** A swap noted in both runs, or in neither. */
  lemma GivenAgrees(v: Waits, w: Waits, op: SwapOp, gone: set<u32>, slot: nat, log: seq<Entry<SwapItem>>)
    requires v.Valid() && w.Valid() && op.Given? && op.Fits()
    requires op.sequence !in gone ==> Landing(v, op) == Landing(w, op)
    ensures Drop(log + Noted(v, op, slot), gone) == Drop(log, gone) + if op.sequence in gone then []
            else Noted(w, op, slot)
  {
    hide Drop, Waits.Landed;
    DropJoins(log, Noted(v, op, slot), gone);
    NotedDropped(v, op, slot, gone);
  }

  lemma KeptStep(ops: seq<SwapOp>, gone: set<u32>, slot: nat)
    requires AllFit(ops) && ops != [] && ops[|ops| - 1].Given? && AllFit(Kept(ops, gone)) &&
             AllFit(Kept(ops[..|ops| - 1], gone))
    ensures var kept := Kept(ops[..|ops| - 1], gone);
            SlotLog(Kept(ops, gone), slot) ==
            SlotLog(kept, slot) + if ops[|ops| - 1].sequence in gone then []
              else Noted(After(kept), ops[|ops| - 1], slot)
  {
    var kept, last := Kept(ops[..|ops| - 1], gone), ops[|ops| - 1];
    hide Noted;
    assert (kept + [last])[..|kept|] == kept;
    assert kept + [] == kept && SlotLog(kept, slot) + [] == SlotLog(kept, slot);
  }

  /** The log of a slot, without the entries of refused orders, is that of the run without them. */
  lemma {:induction false} LogsAgree(ops: seq<SwapOp>, gone: set<u32>, slot: nat)
    requires AllFit(ops) && Timely(ops) && Undisturbed(ops, gone) && slot < SWAP_SLOTS
    ensures AllFit(Kept(ops, gone)) && Drop(SlotLog(ops, slot), gone) == SlotLog(Kept(ops, gone), slot)
    decreases |ops|, 0
  {
    KeptFit(ops, gone);
    if ops != [] {
      var before, last := ops[..|ops| - 1], ops[|ops| - 1];
      KeptFit(before, gone);
      LogsAgree(before, gone, slot);
      hide Drop, Noted, Landing, After, InReach;
      if last.Refused? {
        DropFiltered(SlotLog(before, slot), last.sequence, gone);
        assert Kept(ops, gone) == Kept(before, gone);
      } else {
        var kept := Kept(before, gone);
        if last.sequence !in gone {
          SameCurrent(before, gone, last.swap.from);
          SameCurrent(before, gone, last.swap.to);
          LandsAlike(After(before), After(kept), last);
        }
        GivenAgrees(After(before), After(kept), last, gone, slot, SlotLog(before, slot));
        KeptStep(ops, gone, slot);
      }
    }
  }

  /** A slot clean of refused orders reads the same in both runs. */
  lemma SameCurrent(ops: seq<SwapOp>, gone: set<u32>, slot: nat)
    requires AllFit(ops) && Timely(ops) && Undisturbed(ops, gone) && slot < SWAP_SLOTS &&
             Clean(SlotLog(ops, slot), gone)
    ensures AllFit(Kept(ops, gone))
    ensures After(ops).swaps[slot].CurrentEntry() == After(Kept(ops, gone)).swaps[slot].CurrentEntry()
    decreases |ops|, 1
  {
    KeptFit(ops, gone);
    LogsAgree(ops, gone, slot);
    DropClean(SlotLog(ops, slot), gone);
    SlotStands(ops, slot);
    SlotStands(Kept(ops, gone), slot);
    hide Stands, SlotLog, After, Drop, Kept;
    CurrentEnds(After(ops).swaps[slot], SlotLog(ops, slot));
    CurrentEnds(After(Kept(ops, gone)).swaps[slot], SlotLog(Kept(ops, gone), slot));
  }

  lemma NotedIsIts(w: Waits, op: SwapOp, slot: nat, gone: set<u32>, log: seq<Entry<SwapItem>>)
    requires w.Valid() && op.Given? && op.Fits() && op.sequence !in gone && Clean(log, gone)
    ensures Clean(log + Noted(w, op, slot), gone)
  {
    hide Waits.Landed;
  }

  lemma CleanOfOne(entries: seq<Entry<SwapItem>>, s: u32, gone: set<u32>)
    requires Clean(entries, gone) && forall i :: 0 <= i < |entries| ==> entries[i].0 != s
    ensures Clean(entries, gone + {s})
  {
  }

  /** Once refused, and never given again, an order is in no slot's log. */
  lemma {:induction false} RefusedAreGone(ops: seq<SwapOp>, gone: set<u32>, slot: nat)
    requires AllFit(ops) && Undisturbed(ops, gone)
    ensures Clean(SlotLog(ops, slot), RefusedIn(ops))
  {
    if ops != [] {
      var before, last := ops[..|ops| - 1], ops[|ops| - 1];
      RefusedAreGone(before, gone, slot);
      hide Clean, Noted, After;
      if last.Refused? {
        FilterClean(SlotLog(before, slot), last.sequence);
        FilterWithin(SlotLog(before, slot), last.sequence, RefusedIn(before));
        CleanOfOne(Filter(SlotLog(before, slot), last.sequence), last.sequence, RefusedIn(before));
      } else {
        NotedIsIts(After(before), last, slot, RefusedIn(before), SlotLog(before, slot));
        assert RefusedIn(ops) == RefusedIn(before);
      }
    }
  }

  lemma {:induction false} FilterWithin(entries: seq<Entry<SwapItem>>, s: u32, gone: set<u32>)
    requires Clean(entries, gone)
    ensures Clean(Filter(entries, s), gone)
  {
    if entries != [] {
      var rest := entries[..|entries| - 1];
      assert forall i :: 0 <= i < |rest| ==> rest[i] == entries[i];
      FilterWithin(rest, s, gone);
    }
  }

  /** Over any run of swaps and in-window refusals between two snapshots in which no kept swap was
      worked out from a refused one, every slot reads as in the run without the refused orders, and
      so does every mute. */
  lemma RefusedSwapsLeaveNoMute(ops: seq<SwapOp>, slot: nat, now: u32)
    requires AllFit(ops) && Timely(ops) && Undisturbed(ops, RefusedIn(ops)) && slot < SWAP_SLOTS
    ensures var kept := Kept(ops, RefusedIn(ops));
            AllFit(kept) && After(ops).swaps[slot].CurrentEntry() == After(kept).swaps[slot].CurrentEntry() &&
            After(ops).MuteLeft(Hero, slot, now) == After(kept).MuteLeft(Hero, slot, now)
  {
    RefusedAreGone(ops, RefusedIn(ops), slot);
    SameCurrent(ops, RefusedIn(ops), slot);
  }

  // ---------- which swaps disturb which ----------

  /** Whatever is in the slots: refusing the first of two swaps leaves all as had it not been given. */
  ghost predicate SameAfterRefusal(w: Waits, p: SwapOp, q: SwapOp) {
    w.Valid() && p.Given? && q.Given? && p.Fits() && q.Fits() && p.sequence != q.sequence &&
    w.Fresh(p.sequence) && w.Fresh(q.sequence) ==>
      SameReadings(Next(Next(w, p), q).Reject(p.sequence), Next(w, q))
  }

  ghost predicate NeverDisturbs(first: Swap, second: Swap) {
    forall w: Waits, p: SwapOp, q: SwapOp ::
      p.Given? && q.Given? && p.swap == first && q.swap == second ==> SameAfterRefusal(w, p, q)
  }

  predicate Apart(first: Swap, second: Swap) { {first.from, first.to} !! {second.from, second.to} }

  /** A swap touches its two slots alone. */
  lemma OthersUntouched(w: Waits, op: SwapOp, slot: nat)
    requires w.Valid() && op.Given? && op.Fits() && slot < SWAP_SLOTS && slot != op.swap.from && slot != op.swap.to
    ensures Next(w, op).swaps[slot] == w.swaps[slot] && Next(w, op).journals == w.journals
  {
    hide Waits.Landed, Journal.Push;
    LandedSlots(w, op.cat, op.swap, SatAdd32(op.given, op.lands), op.context);
    var ((slot0, _), (slot1, _)) := Landing(w, op);
    assert slot0 in {slot0, slot1} && slot1 in {slot0, slot1};
  }

  /** A swap pushes the same onto equal journals of its slots when it lands the same. */
  lemma PushesAlike(v: Waits, w: Waits, op: SwapOp, slot: nat)
    requires v.Valid() && w.Valid() && op.Given? && op.Fits() && slot < SWAP_SLOTS
    requires Landing(v, op) == Landing(w, op) && v.swaps[slot] == w.swaps[slot]
    ensures Next(v, op).swaps[slot] == Next(w, op).swaps[slot]
  {
    hide Waits.Landed, Journal.Push;
  }

  /** Only its own order can a swap be taken back by. */
  lemma HoldsItsOwn(w: Waits, op: SwapOp, slot: nat, sequence: u32)
    requires w.Valid() && op.Given? && op.Fits() && slot < SWAP_SLOTS && op.sequence != sequence
    requires !w.swaps[slot].Holds(sequence)
    ensures !Next(w, op).swaps[slot].Holds(sequence)
  {
    hide Waits.Landed;
  }

  lemma ApartSlot(w: Waits, p: SwapOp, q: SwapOp, slot: nat)
    requires w.Valid() && p.Given? && q.Given? && p.Fits() && q.Fits() && p.sequence != q.sequence
    requires w.Fresh(p.sequence) && Apart(p.swap, q.swap) && slot < SWAP_SLOTS
    ensures Next(Next(w, p), q).swaps[slot].Reject(p.sequence).CurrentEntry() == Next(w, q).swaps[slot].CurrentEntry()
  {
    hide Next, Journal.Reject, Landing;
    var given := Next(w, p);
    assert q.swap.from in {q.swap.from, q.swap.to} && q.swap.to in {q.swap.from, q.swap.to};
    assert p.swap.from in {p.swap.from, p.swap.to} && p.swap.to in {p.swap.from, p.swap.to};
    if slot == p.swap.from || slot == p.swap.to {
      OthersUntouched(given, q, slot);
      OthersUntouched(w, q, slot);
      UndoneAt(w, p, slot);
    } else {
      OthersUntouched(w, p, slot);
      OthersUntouched(w, p, q.swap.from);
      OthersUntouched(w, p, q.swap.to);
      LandsAlike(given, w, q);
      PushesAlike(given, w, q, slot);
      HoldsItsOwn(w, q, slot, p.sequence);
      RejectKeepsOthers(Next(w, q).swaps[slot], p.sequence);
    }
  }

  lemma UndoneAt(w: Waits, p: SwapOp, slot: nat)
    requires w.Valid() && p.Given? && p.Fits() && w.Fresh(p.sequence) && slot < SWAP_SLOTS
    ensures Next(w, p).swaps[slot].Reject(p.sequence).CurrentEntry() == w.swaps[slot].CurrentEntry()
  {
    MutesUndone(p.cat, w, p.sequence, Some(p.swap), p.given, p.lands, p.context);
    hide Waits.StartMutes, Journal.Reject;
  }

  /** No wait of a shared kind is touched at all. */
  lemma WaitsUntouched(w: Waits, p: SwapOp, q: SwapOp, body: nat)
    requires w.Valid() && p.Given? && q.Given? && p.Fits() && q.Fits() && w.Fresh(p.sequence) && body < 2
    ensures Next(Next(w, p), q).Reject(p.sequence).journals[body] == Next(w, q).journals[body]
  {
    hide Next, Journal.Reject;
    SwapsTouchNoJournal(w, p);
    SwapsTouchNoJournal(w, q);
    SwapsTouchNoJournal(Next(w, p), q);
    RejectKeepsOthers(w.journals[body], p.sequence);
  }

  lemma ReadAlike(a: Waits, b: Waits)
    requires a.Valid() && b.Valid() && a.journals[0] == b.journals[0] && a.journals[1] == b.journals[1]
    requires forall k :: 0 <= k < SWAP_SLOTS ==> a.swaps[k].CurrentEntry() == b.swaps[k].CurrentEntry()
    ensures SameReadings(a, b)
  {
  }

  lemma ApartNeverDisturbs(w: Waits, p: SwapOp, q: SwapOp)
    requires p.Given? && q.Given? && p.Fits() && q.Fits() && Apart(p.swap, q.swap)
    ensures SameAfterRefusal(w, p, q)
  {
    if w.Valid() && p.sequence != q.sequence && w.Fresh(p.sequence) && w.Fresh(q.sequence) {
      hide Next, Journal.Reject, Journal.CurrentEntry, Apart, Waits.Fresh, SameReadings;
      forall k | 0 <= k < SWAP_SLOTS
        ensures Next(Next(w, p), q).Reject(p.sequence).swaps[k].CurrentEntry() == Next(w, q).swaps[k].CurrentEntry()
      {
        ApartSlot(w, p, q, k);
      }
      WaitsUntouched(w, p, q, 0);
      WaitsUntouched(w, p, q, 1);
      ReadAlike(Next(Next(w, p), q).Reject(p.sequence), Next(w, q));
    }
  }

  lemma SwapsTouchNoJournal(w: Waits, op: SwapOp)
    requires w.Valid() && op.Given? && op.Fits()
    ensures Next(w, op).journals == w.journals
  {
    hide Waits.Landed, Journal.Push;
  }

  // A stack of one kind that merges up to ten, alone in one slot.
  const KIND: ItemId := 100
  const MERGING: Catalogue := map[KIND := ItemDef(1, 10, None, false, false)]

  function Holding(charges: u8): SwapItem {
    SwapItem(if charges == 0 then None else Some(Stack(Counts(KIND, charges, 0), 0, None, false, false)), 0, 0, 0,
      false)
  }

  function Alone(slot: nat): Context {
    Context(seq(SWAP_SLOTS, i => Holding(if i == slot then 1 else 0)), false, 0)
  }

  /** How many charges of it a predicted stack has, whatever its clocks. */
  predicate Has(item: SwapItem, charges: u8) { item.item == Holding(charges).item }

  /** What a swap leaves at a slot last. */
  function LeftAt(w: Waits, op: SwapOp, slot: nat): SwapItem
    requires w.Valid() && op.Given? && op.Fits()
  {
    var ((slot0, item0), (slot1, item1)) := Landing(w, op);
    if slot1 == slot then item1 else if slot0 == slot then item0 else w.Predicted(op.swap.from, op.context)
  }

  lemma Exchanged(w: Waits, op: SwapOp, x: u8, y: u8)
    requires w.Valid() && op.Given? && op.Fits() && op.cat == MERGING && !op.context.atShop &&
             op.swap.from != op.swap.to
    requires Has(w.Predicted(op.swap.from, op.context), x) && Has(w.Predicted(op.swap.to, op.context), y) &&
             (x == 0 || y == 0)
    ensures Has(LeftAt(w, op, op.swap.to), x) && Has(LeftAt(w, op, op.swap.from), y)
  {
    hide Waits.Predicted;
  }

  lemma MergedAlone(w: Waits, op: SwapOp, x: u8)
    requires w.Valid() && op.Given? && op.Fits() && op.cat == MERGING && !op.context.atShop &&
             op.swap.from == op.swap.to
    requires Has(w.Predicted(op.swap.from, op.context), x) && x <= 5
    ensures Has(LeftAt(w, op, op.swap.to), 2 * x)
  {
    hide Waits.Predicted;
  }

  lemma LeftLast(w: Waits, op: SwapOp, slot: nat)
    requires w.Valid() && op.Given? && op.Fits() && (slot == op.swap.from || slot == op.swap.to)
    ensures var kept := Next(w, op).swaps[slot].kept;
            kept != [] && kept[|kept| - 1] == (op.sequence, LeftAt(w, op, slot))
  {
    hide Waits.Landed;
    LandedSlots(w, op.cat, op.swap, SatAdd32(op.given, op.lands), op.context);
    var ((slot0, _), (slot1, _)) := Landing(w, op);
    assert slot in {slot0, slot1};
  }

  /** Rejecting another order leaves the newest entry. */
  lemma RejectLeavesLast(j: Journal<SwapItem>, sequence: u32, entry: Entry<SwapItem>)
    requires j.kept != [] && j.kept[|j.kept| - 1] == entry && entry.0 != sequence
    ensures j.Reject(sequence).CurrentEntry() == Some(entry)
  {
  }

  /** What each slot is predicted to have before the first swap, and after it. */
  function Before(first: Swap, slot: nat): u8 { if slot == first.from then 1 else 0 }

  function Since(first: Swap, slot: nat): u8 {
    if slot != first.to then 0 else if first.from == first.to then 2 else 1
  }

  function Opening(first: Swap): SwapOp { Given(MERGING, 1, first, 0, 0, Alone(first.from)) }

  lemma NothingPredicted(first: Swap, slot: nat)
    requires Opening(first).Fits() && slot < SWAP_SLOTS
    ensures Has(NoWaits().Predicted(slot, Alone(first.from)), Before(first, slot))
  {
  }

  lemma FirstPredicted(first: Swap, slot: nat)
    requires Opening(first).Fits() && slot < SWAP_SLOTS
    ensures Has(Next(NoWaits(), Opening(first)).Predicted(slot, Alone(first.from)), Since(first, slot))
  {
    var w, p := NoWaits(), Opening(first);
    NothingPredicted(first, first.from);
    NothingPredicted(first, first.to);
    NothingPredicted(first, slot);
    if first.from == first.to {
      MergedAlone(w, p, 1);
    } else {
      Exchanged(w, p, 1, 0);
    }
    hide LeftAt, Next, NoWaits, Has;
    if slot == first.from || slot == first.to {
      LeftLast(w, p, slot);
    } else {
      OthersUntouched(w, p, slot);
    }
  }

  /** Where the second swap leaves what it found at `shared`. */
  function Onto(second: Swap, shared: nat): nat { if shared == second.from then second.to else second.from }

  lemma SecondLeaves(w: Waits, q: SwapOp, shared: nat, x: u8, y: u8)
    requires w.Valid() && q.Given? && q.Fits() && q.cat == MERGING && !q.context.atShop
    requires shared == q.swap.from || shared == q.swap.to
    requires Has(w.Predicted(shared, q.context), x) && Has(w.Predicted(Onto(q.swap, shared), q.context), y)
    requires x <= 5 && (q.swap.from == q.swap.to || x == 0 || y == 0)
    ensures Has(LeftAt(w, q, Onto(q.swap, shared)), if q.swap.from == q.swap.to then 2 * x else x)
  {
    hide Waits.Predicted, Has, LeftAt;
    if q.swap.from == q.swap.to {
      MergedAlone(w, q, x);
    } else if shared == q.swap.from {
      Exchanged(w, q, x, y);
    } else {
      Exchanged(w, q, y, x);
    }
  }

  function Following(first: Swap, second: Swap): SwapOp { Given(MERGING, 2, second, 0, 0, Alone(first.from)) }

  /** A slot in common: the second swap finds there what the first left, and moves it on. */
  lemma OverlapLeaves(first: Swap, second: Swap, shared: nat)
    requires Opening(first).Fits() && Following(first, second).Fits()
    requires shared in {first.from, first.to} && shared in {second.from, second.to}
    ensures var q, at := Following(first, second), Onto(second, shared);
            LeftAt(NoWaits(), q, at) != LeftAt(Next(NoWaits(), Opening(first)), q, at)
  {
    var w, q, at := NoWaits(), Following(first, second), Onto(second, shared);
    var v := Next(w, Opening(first));
    NothingPredicted(first, shared);
    NothingPredicted(first, at);
    FirstPredicted(first, shared);
    FirstPredicted(first, at);
    hide Has, LeftAt, Next, NoWaits, Waits.Predicted;
    SecondLeaves(w, q, shared, Before(first, shared), Before(first, at));
    SecondLeaves(v, q, shared, Since(first, shared), Since(first, at));
    var x := if second.from == second.to then 2 * Before(first, shared) else Before(first, shared);
    var y := if second.from == second.to then 2 * Since(first, shared) else Since(first, shared);
    HasOne(LeftAt(w, q, at), LeftAt(v, q, at), x, y);
  }

  lemma OverlapDisturbs(first: Swap, second: Swap, shared: nat)
    requires Opening(first).Fits() && Following(first, second).Fits()
    requires shared in {first.from, first.to} && shared in {second.from, second.to}
    ensures !SameAfterRefusal(NoWaits(), Opening(first), Following(first, second))
  {
    var w, p, q, at := NoWaits(), Opening(first), Following(first, second), Onto(second, shared);
    var v := Next(w, p);
    OverlapLeaves(first, second, shared);
    NoneHeld(p.sequence);
    NoneHeld(q.sequence);
    hide LeftAt, Next, NoWaits, SameReadings, Journal.Reject, Waits.Fresh;
    LeftLast(w, q, at);
    LeftLast(v, q, at);
    RejectLeavesLast(Next(v, q).swaps[at], 1, (2, LeftAt(v, q, at)));
    ReadingsDiffer(Next(v, q).Reject(1), Next(w, q), at);
  }

  lemma NoneHeld(sequence: u32)
    ensures NoWaits().Fresh(sequence)
  {
  }

  lemma HasOne(a: SwapItem, b: SwapItem, x: u8, y: u8)
    requires Has(a, x) && Has(b, y) && x != y
    ensures a != b
  {
  }

  lemma ReadingsDiffer(a: Waits, b: Waits, slot: nat)
    requires a.Valid() && b.Valid() && slot < SWAP_SLOTS && a.swaps[slot].CurrentEntry() != b.swaps[slot].CurrentEntry()
    ensures !SameReadings(a, b)
  {
  }

  /** Refusing a swap leaves every later one as had it never been given, whatever the slots hold and
      whenever they are given, if and only if the two have no slot in common. */
  lemma DisturbsOnlyItsSlots(first: Swap, second: Swap)
    requires first.from < SWAP_SLOTS && first.to < SWAP_SLOTS && second.from < SWAP_SLOTS && second.to < SWAP_SLOTS
    ensures NeverDisturbs(first, second) <==> Apart(first, second)
  {
    hide SameAfterRefusal;
    if Apart(first, second) {
      forall w: Waits, p: SwapOp, q: SwapOp | p.Given? && q.Given? && p.swap == first && q.swap == second
        ensures SameAfterRefusal(w, p, q)
      {
        if p.Fits() && q.Fits() {
          ApartNeverDisturbs(w, p, q);
        } else {
          UnfitIsSame(w, p, q);
        }
      }
    } else {
      var shared :| shared in {first.from, first.to} && shared in {second.from, second.to};
      OverlapDisturbs(first, second, shared);
    }
  }

  lemma UnfitIsSame(w: Waits, p: SwapOp, q: SwapOp)
    requires !p.Fits() || !q.Fits()
    ensures SameAfterRefusal(w, p, q)
  {
  }
}
