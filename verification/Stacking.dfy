/** purchase.rs: how stacks merge, and what a queue of purchases fills a bag with. */
module Stacking {
  import opened Items
  import opened Machine

  /** ids.rs of bota_proto; `TOWN_PORTAL_SLOT` of its limits. */
  const OBSERVER_WARD: ItemId := 4
  const SENTRY_WARD: ItemId := 6
  const TOWN_PORTAL_SCROLL: ItemId := 8
  const WARD_DISPENSER: ItemId := 54
  const TOWN_PORTAL_SLOT: nat := 15

  /** What the rules of stacking and placing read of an item. */
  datatype ItemDef = ItemDef(charges: u8, stackLimit: u8, mode: Option<Attribute>, secretShop: bool, unbuyable: bool)

  type Catalogue = map<ItemId, ItemDef>

  function StackLimit(cat: Catalogue, id: ItemId): u8 { if id in cat then cat[id].stackLimit else 0 }

  predicate Sold(cat: Catalogue, id: ItemId) { id in cat && !cat[id].unbuyable }

  /** The catalogue's check: a stackable is bought in a lot that fits its limit. */
  ghost predicate LotsFit(cat: Catalogue) {
    forall id :: id in cat && cat[id].stackLimit > 0 ==> 1 <= cat[id].charges <= cat[id].stackLimit
  }

  /** What two stacks move between them. */
  datatype Counts = Counts(id: ItemId, charges: u8, sentries: u8)

  datatype Stack = Stack(counts: Counts, owner: u8, mode: Option<Attribute>, forSale: bool, locked: bool)

  function WardCounts(c: Counts): Option<(nat, nat)> {
    if c.id == OBSERVER_WARD then Some((c.charges, 0))
    else if c.id == SENTRY_WARD then Some((0, c.charges))
    else if c.id == WARD_DISPENSER then Some((c.charges, c.sentries))
    else None
  }

  /** Charges `incoming` may add to `held`. */
  function MergeRoom(cat: Catalogue, held: Stack, incoming: Stack, combine: bool): u8 {
    if held.owner != incoming.owner || held.mode != incoming.mode || held.forSale != incoming.forSale ||
       held.counts.charges == 0 || incoming.counts.charges == 0
    then 0
    else
      var limit := StackLimit(cat, held.counts.id);
      if held.counts.id == incoming.counts.id && limit > 0 then Max(limit - held.counts.charges, 0)
      else
        match (WardCounts(held.counts), WardCounts(incoming.counts))
        case (Some((o1, s1)), Some((o2, s2))) => if combine && o1 + o2 <= 255 && s1 + s2 <= 255 then 255 else 0
        case _ => 0
  }

  /** The two counts after `incoming` merges into `held` by `MergeRoom`'s leave; the sums fit a
      byte by that leave. */
  function MergeCounts(cat: Catalogue, held: Stack, incoming: Stack, combine: bool): (r: (Counts, Counts))
    requires MergeRoom(cat, held, incoming, combine) > 0
  {
    var room := MergeRoom(cat, held, incoming, combine);
    var h, i := held.counts, incoming.counts;
    if h.id == i.id && StackLimit(cat, h.id) > 0 then
      var moved := Min(room, i.charges);
      (Counts(h.id, h.charges + moved, h.sentries), Counts(i.id, i.charges - moved, i.sentries))
    else
      var (o1, s1) := WardCounts(h).value;
      var (o2, s2) := WardCounts(i).value;
      (Counts(WARD_DISPENSER, o1 + o2, s1 + s2), Counts(i.id, 0, 0))
  }

  /** What a stack is worth in either ward; nothing for other items. */
  function ObserversIn(c: Counts): nat { if c.id == 4 || c.id == 54 then c.charges else 0 }

  function SentriesIn(c: Counts): nat { if c.id == 6 then c.charges else if c.id == 54 then c.sentries else 0 }

  /** Stacks join exactly when both hold something, belong to one player, are set and offered alike,
      and are either of one stackable item with room left, or both wards of any kind, where wards may
      combine, and neither count passes a byte. Only the room of one item's own limit is less than all. */
  lemma JoinsExactly(cat: Catalogue, held: Stack, incoming: Stack, combine: bool)
    ensures var (h, i) := (held.counts, incoming.counts);
            var limit := if h.id in cat then cat[h.id].stackLimit else 0;
            var room := MergeRoom(cat, held, incoming, combine);
            (room > 0 <==>
             held.owner == incoming.owner && held.mode == incoming.mode && held.forSale == incoming.forSale &&
             h.charges > 0 && i.charges > 0 &&
             if h.id == i.id && limit > 0 then h.charges < limit
             else h.id in {4, 6, 54} && i.id in {4, 6, 54} && combine &&
                  ObserversIn(h) + ObserversIn(i) <= 255 && SentriesIn(h) + SentriesIn(i) <= 255) &&
            (room > 0 ==> room == if h.id == i.id && limit > 0 then limit - h.charges else 255)
  {
  }

  // ---------- what a stack holds ----------

  /** One charge of a stackable, one ward of either kind, or one item bought whole. */
  datatype Piece = Charge(id: ItemId) | Observer | Sentry | Item(counts: Counts)

  function Wards(observers: nat, sentries: nat): multiset<Piece> {
    multiset{}[Observer := observers][Sentry := sentries]
  }

  function Charges(id: ItemId, n: nat): multiset<Piece> { multiset{}[Charge(id) := n] }

  function Contents(cat: Catalogue, c: Counts): multiset<Piece> {
    match WardCounts(c)
    case Some((o, s)) => Wards(o, s)
    case None => if StackLimit(cat, c.id) > 0 then Charges(c.id, c.charges) else multiset{Item(c)}
  }

  lemma WardsAdd(o1: nat, s1: nat, o2: nat, s2: nat)
    ensures Wards(o1, s1) + Wards(o2, s2) == Wards(o1 + o2, s1 + s2)
  {
  }

  lemma ChargesAdd(id: ItemId, m: nat, n: nat)
    ensures Charges(id, m) + Charges(id, n) == Charges(id, m + n)
  {
  }

  /** Merging conserves every charge and every ward, and passes no limit. */
  lemma MergeConserves(cat: Catalogue, held: Stack, incoming: Stack, combine: bool)
    requires MergeRoom(cat, held, incoming, combine) > 0
    ensures var (into, left) := MergeCounts(cat, held, incoming, combine);
            Contents(cat, into) + Contents(cat, left) == Contents(cat, held.counts) + Contents(cat, incoming.counts) &&
            (held.counts.id == incoming.counts.id && StackLimit(cat, held.counts.id) > 0 ==>
               into.id == held.counts.id && into.charges <= StackLimit(cat, into.id)) &&
            (MergeRoom(cat, held, incoming, combine) >= incoming.counts.charges ==> left.charges == 0)
  {
    var (into, left) := MergeCounts(cat, held, incoming, combine);
    if held.counts.id == incoming.counts.id && StackLimit(cat, held.counts.id) > 0 {
      AlikeConserves(cat, held.counts, incoming.counts, into, left);
    } else {
      WardsConserve(cat, held.counts, incoming.counts, into, left);
    }
  }

  lemma AlikeConserves(cat: Catalogue, h: Counts, i: Counts, into: Counts, left: Counts)
    requires h.id == i.id == into.id == left.id && StackLimit(cat, h.id) > 0
    requires into.charges + left.charges == h.charges + i.charges && into.sentries == h.sentries &&
             left.sentries == i.sentries
    ensures Contents(cat, into) + Contents(cat, left) == Contents(cat, h) + Contents(cat, i)
  {
    hide Charges, Wards;
    ChargesAdd(h.id, into.charges, left.charges);
    ChargesAdd(h.id, h.charges, i.charges);
    if WardCounts(h).Some? {
      var a, b, c, d := WardCounts(h).value, WardCounts(i).value, WardCounts(into).value, WardCounts(left).value;
      WardsAdd(a.0, a.1, b.0, b.1);
      WardsAdd(c.0, c.1, d.0, d.1);
      assert a.0 + b.0 == c.0 + d.0 && a.1 + b.1 == c.1 + d.1;
    }
  }

  lemma WardsConserve(cat: Catalogue, h: Counts, i: Counts, into: Counts, left: Counts)
    requires WardCounts(h).Some? && WardCounts(i).Some? && into.id == WARD_DISPENSER && left == Counts(i.id, 0, 0)
    requires (into.charges, into.sentries) == (WardCounts(h).value.0 + WardCounts(i).value.0,
             WardCounts(h).value.1 + WardCounts(i).value.1)
    ensures Contents(cat, into) + Contents(cat, left) == Contents(cat, h) + Contents(cat, i)
  {
  }

  // ---------- where a whole stack goes ----------

  datatype Shelf = Shelf(slots: seq<Option<Stack>>, townPortal: Option<Option<Stack>>, combines: bool)

  predicate Fits(cat: Catalogue, held: Stack, incoming: Stack, combine: bool) {
    incoming.counts.charges > 0 && MergeRoom(cat, held, incoming, combine) >= incoming.counts.charges
  }

  function FirstFit(cat: Catalogue, slots: seq<Option<Stack>>, incoming: Stack, combine: bool, from: nat): (at: nat)
    requires from <= |slots|
    ensures from <= at <= |slots|
    ensures at < |slots| ==> slots[at].Some? && Fits(cat, slots[at].value, incoming, combine)
    ensures forall i :: from <= i < at ==> !(slots[i].Some? && Fits(cat, slots[i].value, incoming, combine))
    decreases |slots| - from
  {
    if from == |slots| || (slots[from].Some? && Fits(cat, slots[from].value, incoming, combine)) then from
    else FirstFit(cat, slots, incoming, combine, from + 1)
  }

  function FirstEmpty(slots: seq<Option<Stack>>, from: nat): (at: nat)
    requires from <= |slots|
    ensures from <= at <= |slots| && (at < |slots| ==> slots[at] == None)
    ensures forall i :: from <= i < at ==> slots[i].Some?
    decreases |slots| - from
  {
    if from == |slots| || slots[from] == None then from else FirstEmpty(slots, from + 1)
  }

  function ReceivingSlot(cat: Catalogue, shelf: Shelf, incoming: Stack): Option<nat> {
    if incoming.counts.id == TOWN_PORTAL_SCROLL && shelf.townPortal.Some? then
      match shelf.townPortal.value
      case None => Some(TOWN_PORTAL_SLOT)
      case Some(held) =>
        if MergeRoom(cat, held, incoming, false) >= incoming.counts.charges then Some(TOWN_PORTAL_SLOT) else None
    else
      var merge := FirstFit(cat, shelf.slots, incoming, shelf.combines, 0);
      var empty := FirstEmpty(shelf.slots, 0);
      if merge < |shelf.slots| then Some(merge) else if empty < |shelf.slots| then Some(empty) else None
  }

  /** Whether a slot takes the whole stack: it is empty, or what it holds has room for all of it. */
  ghost predicate Takes(cat: Catalogue, slot: Option<Stack>, incoming: Stack, combine: bool) {
    slot == None ||
    (incoming.counts.charges > 0 && MergeRoom(cat, slot.value, incoming, combine) >= incoming.counts.charges)
  }

  /** A stack goes to the first slot that has room for all of it beside what is there, else to the first
      empty one, and nowhere exactly when no slot takes it. A town portal scroll goes to its own
      slot alone, where a shelf has one. */
  lemma ReceivedWell(cat: Catalogue, shelf: Shelf, incoming: Stack)
    requires incoming.counts.charges > 0
    ensures var at := ReceivingSlot(cat, shelf, incoming);
            var slots := shelf.slots;
            if incoming.counts.id == 8 && shelf.townPortal.Some?
            then at == if Takes(cat, shelf.townPortal.value, incoming, false) then Some(15) else None
            else if at == None
            then forall i :: 0 <= i < |slots| ==> !Takes(cat, slots[i], incoming, shelf.combines)
            else at.value < |slots| && Takes(cat, slots[at.value], incoming, shelf.combines) &&
                 forall i :: 0 <= i < |slots| && Takes(cat, slots[i], incoming, shelf.combines) ==>
                   at.value <= i || (slots[i] == None && slots[at.value].Some?)
  {
    hide MergeRoom;
  }

  // ---------- a queue of purchases ----------

  type Bag = seq<Option<Stack>>

  function Bought(cat: Catalogue, buyer: u8, item: ItemId): Stack
    requires item in cat
  {
    Stack(Counts(item, cat[item].charges, 0), buyer, cat[item].mode, false, false)
  }

  /** Where a queued item goes in a bag without a town portal slot; none when it is not sold or
      the bag has no room for it. */
  function Taken(cat: Catalogue, buyer: u8, bag: Bag, item: ItemId): Option<nat> {
    if Sold(cat, item) then ReceivingSlot(cat, Shelf(bag, None, true), Bought(cat, buyer, item)) else None
  }

  function Queued(cat: Catalogue, buyer: u8, bag: Bag, item: ItemId): Bag {
    match Taken(cat, buyer, bag, item)
    case None => bag
    case Some(at) =>
      var bought := Bought(cat, buyer, item);
      match bag[at]
      case Some(held) => bag[at := Some(held.(counts := MergeCounts(cat, held, bought, true).0))]
      case None => bag[at := Some(bought)]
  }

  function BagAfter(cat: Catalogue, buyer: u8, queue: seq<ItemId>, slots: nat): (bag: Bag)
    ensures |bag| == slots
  {
    if queue == [] then seq(slots, _ => None)
    else Queued(cat, buyer, BagAfter(cat, buyer, queue[..|queue| - 1], slots), queue[|queue| - 1])
  }

  /** The queue entries that found a slot. */
  function Placed(cat: Catalogue, buyer: u8, queue: seq<ItemId>, slots: nat): seq<ItemId> {
    if queue == [] then []
    else
      var rest, item := queue[..|queue| - 1], queue[|queue| - 1];
      Placed(cat, buyer, rest, slots) +
      if Taken(cat, buyer, BagAfter(cat, buyer, rest, slots), item).Some? then [item] else []
  }

  function SlotContents(cat: Catalogue, slot: Option<Stack>): multiset<Piece> {
    if slot.Some? then Contents(cat, slot.value.counts) else multiset{}
  }

  function BagContents(cat: Catalogue, bag: Bag): multiset<Piece> {
    if bag == [] then multiset{}
    else BagContents(cat, bag[..|bag| - 1]) + SlotContents(cat, bag[|bag| - 1])
  }

  function ItemContents(cat: Catalogue, item: ItemId): multiset<Piece> {
    if item in cat then Contents(cat, Counts(item, cat[item].charges, 0)) else multiset{}
  }

  function BoughtContents(cat: Catalogue, items: seq<ItemId>): multiset<Piece> {
    if items == [] then multiset{}
    else BoughtContents(cat, items[..|items| - 1]) + ItemContents(cat, items[|items| - 1])
  }

  lemma {:induction false} BagUpdate(cat: Catalogue, bag: Bag, at: nat, slot: Option<Stack>)
    requires at < |bag|
    ensures BagContents(cat, bag[at := slot]) + SlotContents(cat, bag[at]) == BagContents(cat, bag) +
            SlotContents(cat, slot)
  {
    hide SlotContents;
    var n := |bag| - 1;
    if at == n {
      assert bag[at := slot][..n] == bag[..n];
    } else {
      BagUpdate(cat, bag[..n], at, slot);
      assert bag[at := slot][..n] == bag[..n][at := slot];
      Beside(BagContents(cat, bag[..n][at := slot]), SlotContents(cat, bag[at]),
             BagContents(cat, bag[..n]), SlotContents(cat, slot), SlotContents(cat, bag[n]));
    }
  }

  lemma Beside(a: multiset<Piece>, b: multiset<Piece>, c: multiset<Piece>, d: multiset<Piece>, more: multiset<Piece>)
    requires a + b == c + d
    ensures (a + more) + b == (c + more) + d
  {
    forall p: Piece
      ensures ((a + more) + b)[p] == ((c + more) + d)[p]
    {
      assert (a + b)[p] == (c + d)[p];
    }
  }

  lemma {:induction false} EmptyBag(cat: Catalogue, slots: nat)
    ensures BagContents(cat, seq(slots, _ => None)) == multiset{}
  {
    if slots > 0 {
      EmptyBag(cat, slots - 1);
      assert seq<Option<Stack>>(slots, _ => None)[..slots - 1] == seq(slots - 1, _ => None);
    }
  }

  /** A stack that goes in whole leaves nothing behind. */
  lemma GoesInWhole(cat: Catalogue, buyer: u8, held: Stack, item: ItemId)
    requires item in cat && Fits(cat, held, Bought(cat, buyer, item), true)
    ensures Contents(cat, MergeCounts(cat, held, Bought(cat, buyer, item), true).0) ==
            Contents(cat, held.counts) + Contents(cat, Bought(cat, buyer, item).counts)
  {
    var bought := Bought(cat, buyer, item);
    MergeConserves(cat, held, bought, true);
    var left := MergeCounts(cat, held, bought, true).1;
    assert left == Counts(item, 0, 0);
    assert WardCounts(left).Some? || StackLimit(cat, item) > 0;
    assert Contents(cat, left) == multiset{};
  }

  /** A queued item adds exactly what it is to the bag, or nothing. */
  lemma QueuedConserves(cat: Catalogue, buyer: u8, bag: Bag, item: ItemId)
    ensures BagContents(cat, Queued(cat, buyer, bag, item)) ==
            BagContents(cat, bag) + if Taken(cat, buyer, bag, item).Some? then ItemContents(cat, item) else multiset{}
  {
    hide Contents, BagContents;
    match Taken(cat, buyer, bag, item)
    case None =>
    case Some(at) =>
      var bought := Bought(cat, buyer, item);
      var slot := Queued(cat, buyer, bag, item)[at];
      match bag[at] {
        case Some(held) => GoesInWhole(cat, buyer, held, item);
        case None =>
      }
      assert SlotContents(cat, slot) == SlotContents(cat, bag[at]) + ItemContents(cat, item);
      assert Queued(cat, buyer, bag, item) == bag[at := slot];
      BagUpdate(cat, bag, at, slot);
      Rebalance(BagContents(cat, bag[at := slot]), SlotContents(cat, bag[at]), BagContents(cat, bag),
        ItemContents(cat, item));
  }

  lemma Rebalance(after: multiset<Piece>, slot: multiset<Piece>, before: multiset<Piece>, item: multiset<Piece>)
    requires after + slot == before + (slot + item)
    ensures after == before + item
  {
    forall p: Piece
      ensures after[p] == (before + item)[p]
    {
      assert (after + slot)[p] == (before + (slot + item))[p];
    }
  }

  /** The bag holds exactly the charges and the items of the entries that found a slot. */
  lemma {:induction false} QueueConserves(cat: Catalogue, buyer: u8, queue: seq<ItemId>, slots: nat)
    ensures BagContents(cat, BagAfter(cat, buyer, queue, slots)) ==
            BoughtContents(cat, Placed(cat, buyer, queue, slots))
  {
    if queue == [] {
      EmptyBag(cat, slots);
    } else {
      var rest, item := queue[..|queue| - 1], queue[|queue| - 1];
      QueueConserves(cat, buyer, rest, slots);
      QueuedConserves(cat, buyer, BagAfter(cat, buyer, rest, slots), item);
      var placed := Placed(cat, buyer, rest, slots);
      assert (placed + [item])[..|placed|] == placed;
      assert placed + [] == placed;
    }
  }

  ghost predicate WithinLimits(cat: Catalogue, bag: Bag) {
    forall i :: 0 <= i < |bag| && bag[i].Some? && StackLimit(cat, bag[i].value.counts.id) > 0 &&
                bag[i].value.counts.id != WARD_DISPENSER ==>
      bag[i].value.counts.charges <= StackLimit(cat, bag[i].value.counts.id)
  }

  /** No queue passes a stack limit, and an entry sold goes without a slot only when the bag has
      none empty. */
  lemma {:induction false} QueueKeepsLimits(cat: Catalogue, buyer: u8, queue: seq<ItemId>, slots: nat)
    requires LotsFit(cat)
    ensures WithinLimits(cat, BagAfter(cat, buyer, queue, slots))
    ensures queue != [] && Sold(cat, queue[|queue| - 1]) ==>
              var bag := BagAfter(cat, buyer, queue[..|queue| - 1], slots);
              Taken(cat, buyer, bag, queue[|queue| - 1]) == None ==> forall i :: 0 <= i < |bag| ==> bag[i].Some?
  {
    if queue != [] {
      var rest, item := queue[..|queue| - 1], queue[|queue| - 1];
      QueueKeepsLimits(cat, buyer, rest, slots);
      var bag := BagAfter(cat, buyer, rest, slots);
      var at := Taken(cat, buyer, bag, item);
      if at.Some? && bag[at.value].Some? {
        MergeConserves(cat, bag[at.value].value, Bought(cat, buyer, item), true);
      }
    }
  }

  /** A queued item, where it is sold, goes beside what a slot holds before it takes an empty one, wards
      combining; it is left out exactly when no slot takes it, and every other slot stays as it was. */
  lemma QueuedWell(cat: Catalogue, buyer: u8, bag: Bag, item: ItemId)
    requires item in cat && cat[item].charges > 0
    ensures var bought := Stack(Counts(item, cat[item].charges, 0), buyer, cat[item].mode, false, false);
            var (at, after) := (Taken(cat, buyer, bag, item), Queued(cat, buyer, bag, item));
            (at == None <==> cat[item].unbuyable || forall i :: 0 <= i < |bag| ==> !Takes(cat, bag[i], bought, true)) &&
            (at == None ==> after == bag) &&
            (at.Some? ==>
               at.value < |bag| == |after| && Takes(cat, bag[at.value], bought, true) &&
               (bag[at.value] == None ==>
                  after[at.value] == Some(bought) &&
                  forall i :: 0 <= i < |bag| && bag[i].Some? ==> !Takes(cat, bag[i], bought, true)) &&
               forall i :: 0 <= i < |bag| && i != at.value ==> after[i] == bag[i])
  {
    ReceivedWell(cat, Shelf(bag, None, true), Bought(cat, buyer, item));
    hide ReceivingSlot, MergeRoom, MergeCounts;
  }

  /** Every stack a queue fills a bag with is the buyer's, neither offered nor locked, and holds something. */
  lemma {:induction false} QueueIsBuyers(cat: Catalogue, buyer: u8, queue: seq<ItemId>, slots: nat, i: nat)
    requires i < slots && BagAfter(cat, buyer, queue, slots)[i].Some?
    ensures var stack := BagAfter(cat, buyer, queue, slots)[i].value;
            stack.owner == buyer && !stack.forSale && !stack.locked &&
            (stack.counts.id in queue || stack.counts.id == 54)
  {
    if queue != [] {
      var rest, item := queue[..|queue| - 1], queue[|queue| - 1];
      var bag := BagAfter(cat, buyer, rest, slots);
      if bag[i].Some? {
        QueueIsBuyers(cat, buyer, rest, slots, i);
        assert bag[i].value.counts.id in rest ==> bag[i].value.counts.id in queue;
      }
    }
  }

  method QueuedBag(cat: Catalogue, buyer: u8, queue: seq<ItemId>, slots: nat) returns (bag: Bag)
    ensures bag == BagAfter(cat, buyer, queue, slots)
    ensures BagContents(cat, bag) == BoughtContents(cat, Placed(cat, buyer, queue, slots))
  {
    bag := seq(slots, _ => None);
    for k := 0 to |queue|
      invariant bag == BagAfter(cat, buyer, queue[..k], slots)
    {
      assert queue[..k + 1][..k] == queue[..k];
      var at := Taken(cat, buyer, bag, queue[k]);
      if at.Some? {
        var bought := Bought(cat, buyer, queue[k]);
        match bag[at.value] {
          case Some(held) => bag := bag[at.value := Some(held.(counts := MergeCounts(cat, held, bought, true).0))];
          case None => bag := bag[at.value := Some(bought)];
        }
      }
    }
    assert queue[..|queue|] == queue;
    QueueConserves(cat, buyer, queue, slots);
  }
}
