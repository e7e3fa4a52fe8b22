/** `place_shop_purchase` of purchase.rs: every part of a purchase gets its berth before anything
    is charged, first fit first. */
module Placement {
  import opened Items
  import opened Machine
  import opened Stacking

  datatype Berth = Bag(at: nat) | Stash(at: nat) | Courier(at: nat)

  datatype Carrier = Carrier(bag: Shelf, base: bool, secret: bool)

  datatype Context = Context(hero: Option<Carrier>, courier: Option<Carrier>, stash: Shelf, universalShop: bool,
    respawning: bool)

  datatype Reason = NothingToBuy | UnknownItem | NotAtShop | InventoryFull

  // ---------- what the program does ----------

  /** Which container a berth is in: the constructor the program passes along. */
  datatype Side = HeroBag | HomeStash | CourierBag

  function BerthAt(side: Side, at: nat): Berth {
    match side
    case HeroBag => Bag(at)
    case HomeStash => Stash(at)
    case CourierBag => Courier(at)
  }

  function FirstUnreserved(slots: seq<Option<Stack>>, side: Side, reserved: seq<Berth>, from: nat): Option<Berth>
    requires from <= |slots|
    decreases |slots| - from
  {
    if from == |slots| then None
    else if slots[from] == None && BerthAt(side, from) !in reserved then Some(BerthAt(side, from))
    else FirstUnreserved(slots, side, reserved, from + 1)
  }

  function PurchaseSlot(cat: Catalogue, buyer: u8, item: ItemId, shelf: Shelf, side: Side,
      reserved: seq<Berth>): Option<Berth>
    requires item in cat
  {
    if cat[item].stackLimit > 0 then
      match ReceivingSlot(cat, shelf, Bought(cat, buyer, item))
      case Some(at) => Some(BerthAt(side, at))
      case None => None
    else FirstUnreserved(shelf.slots, side, reserved, 0)
  }

  /** A secret-shop part needs a carrier at the secret shop. */
  predicate NeedsSecret(cat: Catalogue, context: Context, item: ItemId)
    requires item in cat
  {
    cat[item].secretShop && !context.universalShop
  }

  predicate HeroSecret(context: Context) { context.hero.Some? && context.hero.value.secret }

  predicate CourierSecret(context: Context) { context.courier.Some? && context.courier.value.secret }

  predicate HeroBase(context: Context) { context.hero.Some? && (context.hero.value.base || context.respawning) }

  function OrElse(a: Option<Berth>, b: Option<Berth>): Option<Berth> { if a.Some? then a else b }

  function NextBerth(cat: Catalogue, buyer: u8, context: Context, item: ItemId, reserved: seq<Berth>)
    : Result<Berth, Reason>
  {
    if !Sold(cat, item) then Err(UnknownItem)
    else if NeedsSecret(cat, context, item) && !HeroSecret(context) && !CourierSecret(context) then Err(NotAtShop)
    else
      var berth :=
        if NeedsSecret(cat, context, item) then
          OrElse(if HeroSecret(context)
                 then PurchaseSlot(cat, buyer, item, context.hero.value.bag, HeroBag, reserved) else None,
                 if CourierSecret(context)
                 then PurchaseSlot(cat, buyer, item, context.courier.value.bag, CourierBag, reserved) else None)
        else
          OrElse(if HeroBase(context)
                 then PurchaseSlot(cat, buyer, item, context.hero.value.bag, HeroBag, reserved) else None,
                 PurchaseSlot(cat, buyer, item, context.stash, HomeStash, reserved));
      if berth.Some? then Ok(berth.value) else Err(InventoryFull)
  }

  /** The berths of the first `n` parts, or the first refusal. */
  function PlacedFirst(cat: Catalogue, buyer: u8, context: Context, parts: seq<ItemId>,
      n: nat): (r: Result<seq<Berth>, Reason>)
    requires n <= |parts|
    ensures r.Ok? ==> |r.value| == n
  {
    if n == 0 then Ok([])
    else
      match PlacedFirst(cat, buyer, context, parts, n - 1)
      case Err(reason) => Err(reason)
      case Ok(berths) =>
        match NextBerth(cat, buyer, context, parts[n - 1], berths)
        case Ok(berth) => Ok(berths + [berth])
        case Err(reason) => Err(reason)
  }

  method PlaceShopPurchase(cat: Catalogue, buyer: u8, parts: seq<ItemId>, context: Context)
      returns (r: Result<seq<Berth>, Reason>)
    ensures parts == [] ==> r == Err(NothingToBuy)
    ensures parts != [] ==> r == PlacedFirst(cat, buyer, context, parts, |parts|)
    ensures Unmerged(cat, parts) && r.Ok? ==> IsAssignment(cat, context, parts, r.value)
    ensures Unmerged(cat, parts) && !HeroAtBoth(context) && r == Err(InventoryFull) ==>
            !exists a :: IsAssignment(cat, context, parts, a)
  {
    if parts == [] {
      return Err(NothingToBuy);
    }
    var berths: seq<Berth> := [];
    for k := 0 to |parts|
      invariant PlacedFirst(cat, buyer, context, parts, k) == Ok(berths)
    {
      match NextBerth(cat, buyer, context, parts[k], berths) {
        case Ok(berth) => berths := berths + [berth];
        case Err(reason) =>
          StaysRefused(cat, buyer, context, parts, k + 1, |parts|);
          if Unmerged(cat, parts) && !HeroAtBoth(context) && reason == InventoryFull {
            RefusedMeansNone(cat, buyer, context, parts, k);
          }
          return Err(reason);
      }
    }
    if Unmerged(cat, parts) {
      PlacedWell(cat, buyer, context, parts, |parts|);
    }
    return Ok(berths);
  }

  lemma {:induction false} StaysRefused(cat: Catalogue, buyer: u8, context: Context, parts: seq<ItemId>, k: nat, n: nat)
    requires k <= n <= |parts| && PlacedFirst(cat, buyer, context, parts, k).Err?
    ensures PlacedFirst(cat, buyer, context, parts, n) == PlacedFirst(cat, buyer, context, parts, k)
  {
    if k < n {
      StaysRefused(cat, buyer, context, parts, k, n - 1);
    }
  }

  // ---------- what a purchase may use ----------

  /** No part merges into a stack. */
  ghost predicate Unmerged(cat: Catalogue, parts: seq<ItemId>) {
    forall p :: p in parts && p in cat ==> cat[p].stackLimit == 0
  }

  /** The berth is an empty slot of a shelf the part may go to. */
  predicate Allowed(cat: Catalogue, context: Context, item: ItemId, berth: Berth)
    requires item in cat
  {
    match berth
    case Bag(at) =>
      (if NeedsSecret(cat, context, item) then HeroSecret(context) else HeroBase(context)) &&
      Free(context.hero.value.bag, at)
    case Courier(at) => NeedsSecret(cat, context, item) && CourierSecret(context) && Free(context.courier.value.bag, at)
    case Stash(at) => !NeedsSecret(cat, context, item) && Free(context.stash, at)
  }

  predicate Free(shelf: Shelf, at: nat) { at < |shelf.slots| && shelf.slots[at] == None }

  /** Every part in an empty slot it may use, no two in the same. */
  ghost predicate IsAssignment(cat: Catalogue, context: Context, parts: seq<ItemId>, berths: seq<Berth>) {
    |berths| == |parts| &&
    (forall i :: 0 <= i < |parts| ==> Sold(cat, parts[i]) && Allowed(cat, context, parts[i], berths[i])) &&
    (forall i, j :: 0 <= i < j < |berths| ==> berths[i] != berths[j])
  }

  /** The hero counts both for base parts and for secret ones. */
  predicate HeroAtBoth(context: Context) { !context.universalShop && HeroSecret(context) && HeroBase(context) }

  lemma {:induction false} UnreservedIsFirst(slots: seq<Option<Stack>>, side: Side, reserved: seq<Berth>, from: nat)
    requires from <= |slots|
    ensures match FirstUnreserved(slots, side, reserved, from)
            case Some(b) =>
              b !in reserved && exists at: nat :: from <= at < |slots| && slots[at] == None && b == BerthAt(side, at)
            case None => forall at: nat :: from <= at < |slots| && slots[at] == None ==> BerthAt(side, at) in reserved
    decreases |slots| - from
  {
    if from < |slots| && !(slots[from] == None && BerthAt(side, from) !in reserved) {
      UnreservedIsFirst(slots, side, reserved, from + 1);
    }
  }

  /** The next berth is allowed and new; without one every allowed berth is reserved. */
  lemma NextIsAllowed(cat: Catalogue, buyer: u8, context: Context, item: ItemId, reserved: seq<Berth>)
    requires Sold(cat, item) && cat[item].stackLimit == 0
    ensures match NextBerth(cat, buyer, context, item, reserved)
            case Ok(b) => b !in reserved && Allowed(cat, context, item, b)
            case Err(reason) => reason != UnknownItem && forall b :: Allowed(cat, context, item, b) ==> b in reserved
  {
    if HeroSecret(context) || HeroBase(context) {
      UnreservedIsFirst(context.hero.value.bag.slots, HeroBag, reserved, 0);
    }
    if CourierSecret(context) {
      UnreservedIsFirst(context.courier.value.bag.slots, CourierBag, reserved, 0);
    }
    UnreservedIsFirst(context.stash.slots, HomeStash, reserved, 0);
    forall b | NextBerth(cat, buyer, context, item, reserved).Err? && Allowed(cat, context, item, b)
      ensures b in reserved
    {
      match b
      case Bag(at) => assert BerthAt(HeroBag, at) in reserved;
      case Stash(at) => assert BerthAt(HomeStash, at) in reserved;
      case Courier(at) => assert BerthAt(CourierBag, at) in reserved;
    }
  }

  lemma {:induction false} PlacedWell(cat: Catalogue, buyer: u8, context: Context, parts: seq<ItemId>, n: nat)
    requires n <= |parts| && Unmerged(cat, parts) && PlacedFirst(cat, buyer, context, parts, n).Ok?
    ensures IsAssignment(cat, context, parts[..n], PlacedFirst(cat, buyer, context, parts, n).value)
  {
    if n > 0 {
      PlacedWell(cat, buyer, context, parts, n - 1);
      NextIsAllowed(cat, buyer, context, parts[n - 1], PlacedFirst(cat, buyer, context, parts, n - 1).value);
    }
  }

  /** A part for the secret shop alone goes to a carrier that is there; any other part to the hero's
      bag, while the hero is at the base or waits to stand up again, or to the stash. */
  lemma AllowedWhere(cat: Catalogue, context: Context, item: ItemId, berth: Berth)
    requires item in cat
    ensures var secret := cat[item].secretShop && !context.universalShop;
            Allowed(cat, context, item, berth) <==>
              match berth
              case Bag(at) =>
                context.hero.Some? &&
                (if secret then context.hero.value.secret else context.hero.value.base || context.respawning) &&
                at < |context.hero.value.bag.slots| && context.hero.value.bag.slots[at] == None
              case Courier(at) =>
                secret && context.courier.Some? && context.courier.value.secret &&
                at < |context.courier.value.bag.slots| && context.courier.value.bag.slots[at] == None
              case Stash(at) => !secret && at < |context.stash.slots| && context.stash.slots[at] == None
  {
  }

  /** The shelf a berth is on, where a part may use it. */
  ghost function ShelfFor(cat: Catalogue, context: Context, item: ItemId, side: Side): Option<Shelf>
    requires item in cat
  {
    var secret := cat[item].secretShop && !context.universalShop;
    match side
    case HeroBag =>
      if context.hero.Some? &&
         (if secret then context.hero.value.secret else context.hero.value.base || context.respawning)
        then Some(context.hero.value.bag) else None
    case CourierBag =>
      if secret && context.courier.Some? && context.courier.value.secret then Some(context.courier.value.bag) else None
    case HomeStash => if secret then None else Some(context.stash)
  }

  /** A part that merges goes to the slot of the first shelf open to it that receives it, the hero's bag before
      the others, and is refused for room exactly when no shelf open to it receives it. */
  lemma MergedPart(cat: Catalogue, buyer: u8, context: Context, item: ItemId, reserved: seq<Berth>)
    requires Sold(cat, item) && cat[item].stackLimit > 0
    ensures var hero := ShelfFor(cat, context, item, HeroBag);
            var rest := if cat[item].secretShop && !context.universalShop then CourierBag else HomeStash;
            var other := ShelfFor(cat, context, item, rest);
            var bought := Stack(Counts(item, cat[item].charges, 0), buyer, cat[item].mode, false, false);
            var first := if hero.Some? then ReceivingSlot(cat, hero.value, bought) else None;
            var second := if other.Some? then ReceivingSlot(cat, other.value, bought) else None;
            match NextBerth(cat, buyer, context, item, reserved)
            case Ok(b) =>
              if first.Some? then b == Bag(first.value) else second.Some? && b == BerthAt(rest, second.value)
            case Err(reason) => first == None && second == None
  {
    hide ReceivingSlot;
  }

  /** What each refusal says of its part: it is not on sale, no carrier is where it is sold, or it is
      sold where a carrier is. */
  lemma RefusedFor(cat: Catalogue, buyer: u8, context: Context, item: ItemId, reserved: seq<Berth>)
    ensures var answer := NextBerth(cat, buyer, context, item, reserved);
            (answer == Err(UnknownItem) <==> item !in cat || cat[item].unbuyable) &&
            (answer == Err(NotAtShop) <==>
               item in cat && !cat[item].unbuyable && cat[item].secretShop && !context.universalShop &&
               !(context.hero.Some? && context.hero.value.secret) &&
               !(context.courier.Some? && context.courier.value.secret)) &&
            answer != Err(NothingToBuy)
  {
    hide PurchaseSlot;
  }

  // ---------- first fit is complete while the hero serves one shop ----------

  ghost function Image(indices: set<nat>, berths: seq<Berth>): set<Berth>
    requires forall i :: i in indices ==> i < |berths|
  {
    set i | i in indices :: berths[i]
  }

  lemma {:induction false} ImageSize(indices: set<nat>, berths: seq<Berth>)
    requires forall i :: i in indices ==> i < |berths|
    ensures |Image(indices, berths)| <= |indices|
    ensures (forall i, j :: 0 <= i < j < |berths| ==> berths[i] != berths[j]) ==> |Image(indices, berths)| == |indices|
    decreases indices
  {
    if indices != {} {
      var i :| i in indices;
      var rest := indices - {i};
      ImageSize(rest, berths);
      assert Image(indices, berths) == Image(rest, berths) + {berths[i]};
    }
  }

  lemma SubsetSize<T>(a: set<T>, b: set<T>)
    requires a <= b
    ensures |a| <= |b|
  {
    assert b == a + (b - a);
  }

  /** Two parts that may use the same berths, or none in common. */
  ghost predicate Alike(cat: Catalogue, context: Context, p: ItemId, q: ItemId)
    requires p in cat && q in cat
  {
    forall b :: Allowed(cat, context, p, b) <==> Allowed(cat, context, q, b)
  }

  ghost predicate Apart(cat: Catalogue, context: Context, p: ItemId, q: ItemId)
    requires p in cat && q in cat
  {
    forall b :: !(Allowed(cat, context, p, b) && Allowed(cat, context, q, b))
  }

  /** A part refused a berth leaves no assignment, as long as every earlier part competes for
      just the same berths or for none of them. */
  lemma RefusedWhenApart(cat: Catalogue, buyer: u8, context: Context, parts: seq<ItemId>, k: nat, a: seq<Berth>)
    requires k < |parts| && Unmerged(cat, parts) && PlacedFirst(cat, buyer, context, parts, k).Ok?
    requires NextBerth(cat, buyer, context, parts[k], PlacedFirst(cat, buyer, context, parts, k).value).Err?
    requires forall i :: 0 <= i < k && parts[i] in cat && parts[k] in cat ==>
               Alike(cat, context, parts[i], parts[k]) || Apart(cat, context, parts[i], parts[k])
    ensures !IsAssignment(cat, context, parts, a)
  {
    if IsAssignment(cat, context, parts, a) {
      var berths := PlacedFirst(cat, buyer, context, parts, k).value;
      PlacedWell(cat, buyer, context, parts, k);
      NextIsAllowed(cat, buyer, context, parts[k], berths);
      Rivals(cat, context, parts, k, berths, a);
    }
  }

  lemma TakenByRival(cat: Catalogue, context: Context, parts: seq<ItemId>, k: nat, berths: seq<Berth>, b: Berth)
      returns (j: nat)
    requires k < |parts| && IsAssignment(cat, context, parts[..k], berths)
    requires parts[k] in cat && Allowed(cat, context, parts[k], b) && b in berths
    requires forall i ::
             0 <= i < k && parts[i] in cat ==>
             Alike(cat, context, parts[i], parts[k]) || Apart(cat, context, parts[i], parts[k])
    ensures j < k && parts[j] in cat && Alike(cat, context, parts[j], parts[k]) && berths[j] == b
  {
    hide Allowed;
    j :| 0 <= j < k && berths[j] == b;
    assert Allowed(cat, context, parts[..k][j], b);
  }

  /** In any assignment the last part and all its rivals are on berths the last part may use. */
  lemma RivalsAllowed(cat: Catalogue, context: Context, parts: seq<ItemId>, k: nat, a: seq<Berth>, i: nat)
    requires k < |parts| && IsAssignment(cat, context, parts, a) && i <= k
    requires i == k || Alike(cat, context, parts[i], parts[k])
    ensures Allowed(cat, context, parts[k], a[i])
  {
    assert Allowed(cat, context, parts[i], a[i]);
  }

  ghost function RivalsOf(cat: Catalogue, context: Context, parts: seq<ItemId>, k: nat): (r: set<nat>)
    requires k < |parts| && parts[k] in cat
    ensures forall i :: i in r ==> i < k
  {
    set i: nat | 0 <= i < k && parts[i] in cat && Alike(cat, context, parts[i], parts[k])
  }

  /** Those berths are all taken by the rivals before it. */
  lemma RivalsTake(cat: Catalogue, context: Context, parts: seq<ItemId>, k: nat, berths: seq<Berth>, a: seq<Berth>)
    requires k < |parts| && IsAssignment(cat, context, parts[..k], berths) && IsAssignment(cat, context, parts, a)
    requires parts[k] in cat && forall b :: Allowed(cat, context, parts[k], b) ==> b in berths
    requires forall i ::
             0 <= i < k && parts[i] in cat ==>
             Alike(cat, context, parts[i], parts[k]) || Apart(cat, context, parts[i], parts[k])
    ensures var rivals := RivalsOf(cat, context, parts, k);
            Image(rivals + {k}, a) <= Image(rivals, berths)
  {
    var rivals := RivalsOf(cat, context, parts, k);
    forall i | i in rivals + {k}
      ensures Allowed(cat, context, parts[k], a[i])
    {
      RivalsAllowed(cat, context, parts, k, a, i);
    }
    hide Allowed, Alike, Apart, IsAssignment;
    forall b | b in Image(rivals + {k}, a)
      ensures b in Image(rivals, berths)
    {
      var j := TakenByRival(cat, context, parts, k, berths, b);
    }
  }

  lemma Rivals(cat: Catalogue, context: Context, parts: seq<ItemId>, k: nat, berths: seq<Berth>, a: seq<Berth>)
    requires k < |parts| && IsAssignment(cat, context, parts[..k], berths)
    requires parts[k] in cat && forall b :: Allowed(cat, context, parts[k], b) ==> b in berths
    requires forall i ::
             0 <= i < k && parts[i] in cat ==>
             Alike(cat, context, parts[i], parts[k]) || Apart(cat, context, parts[i], parts[k])
    ensures !IsAssignment(cat, context, parts, a)
  {
    if IsAssignment(cat, context, parts, a) {
      var rivals := RivalsOf(cat, context, parts, k);
      RivalsTake(cat, context, parts, k, berths, a);
      hide Allowed, Alike, Apart;
      ImageSize(rivals + {k}, a);
      ImageSize(rivals, berths);
      SubsetSize(Image(rivals + {k}, a), Image(rivals, berths));
    }
  }

  lemma HeroAtOneShop(cat: Catalogue, context: Context, p: ItemId, q: ItemId)
    requires p in cat && q in cat && !HeroAtBoth(context)
    ensures Alike(cat, context, p, q) || Apart(cat, context, p, q)
  {
  }

  lemma RefusedMeansNone(cat: Catalogue, buyer: u8, context: Context, parts: seq<ItemId>, k: nat)
    requires k < |parts| && Unmerged(cat, parts) && PlacedFirst(cat, buyer, context, parts, k).Ok? &&
             !HeroAtBoth(context)
    requires NextBerth(cat, buyer, context, parts[k], PlacedFirst(cat, buyer, context, parts, k).value).Err?
    ensures !exists a :: IsAssignment(cat, context, parts, a)
  {
    forall a
      ensures !IsAssignment(cat, context, parts, a)
    {
      forall i | 0 <= i < k && parts[i] in cat && parts[k] in cat
        ensures Alike(cat, context, parts[i], parts[k]) || Apart(cat, context, parts[i], parts[k])
      {
        HeroAtOneShop(cat, context, parts[i], parts[k]);
      }
      RefusedWhenApart(cat, buyer, context, parts, k, a);
    }
  }

  // ---------- and exactly when it is complete ----------

  ghost function FreeSlots(shelf: Shelf): set<nat> { set at | 0 <= at < |shelf.slots| && shelf.slots[at] == None }

  ghost function CourierSlots(context: Context): set<nat> {
    if CourierSecret(context) then FreeSlots(context.courier.value.bag) else {}
  }

  /** The hero counts for both shops, has room, and a part of one of them could go elsewhere. */
  ghost predicate Contended(context: Context) {
    HeroAtBoth(context) && FreeSlots(context.hero.value.bag) != {} &&
    (FreeSlots(context.stash) != {} || CourierSlots(context) != {})
  }

  /** First fit finds berths for every list of unmerged parts that has any. */
  ghost predicate Complete(cat: Catalogue, buyer: u8, context: Context) {
    forall parts, a ::
      Unmerged(cat, parts) && IsAssignment(cat, context, parts, a) ==>
      PlacedFirst(cat, buyer, context, parts, |parts|).Ok?
  }

  lemma AllowedIn(cat: Catalogue, context: Context, item: ItemId, b: Berth)
    requires item in cat && HeroAtBoth(context)
    ensures Allowed(cat, context, item, b) <==>
            match b
            case Bag(at) => at in FreeSlots(context.hero.value.bag)
            case Stash(at) => !cat[item].secretShop && at in FreeSlots(context.stash)
            case Courier(at) => cat[item].secretShop && at in CourierSlots(context)
  {
  }

  lemma UncontendedParts(cat: Catalogue, context: Context, p: ItemId, q: ItemId)
    requires p in cat && q in cat && !Contended(context)
    ensures Alike(cat, context, p, q) || Apart(cat, context, p, q)
  {
    if !HeroAtBoth(context) {
      HeroAtOneShop(cat, context, p, q);
    } else if cat[p].secretShop == cat[q].secretShop || FreeSlots(context.hero.value.bag) != {} {
      forall b
        ensures Allowed(cat, context, p, b) <==> Allowed(cat, context, q, b)
      {
        AllowedIn(cat, context, p, b);
        AllowedIn(cat, context, q, b);
      }
    } else {
      forall b
        ensures !(Allowed(cat, context, p, b) && Allowed(cat, context, q, b))
      {
        AllowedIn(cat, context, p, b);
        AllowedIn(cat, context, q, b);
      }
    }
  }

  lemma UncontendedComplete(cat: Catalogue, buyer: u8, context: Context, parts: seq<ItemId>, a: seq<Berth>, n: nat)
    requires !Contended(context) && Unmerged(cat, parts) && IsAssignment(cat, context, parts, a) && n <= |parts|
    ensures PlacedFirst(cat, buyer, context, parts, n).Ok?
  {
    if n > 0 {
      UncontendedComplete(cat, buyer, context, parts, a, n - 1);
      forall i | 0 <= i < n - 1
        ensures Alike(cat, context, parts[i], parts[n - 1]) || Apart(cat, context, parts[i], parts[n - 1])
      {
        UncontendedParts(cat, context, parts[i], parts[n - 1]);
      }
      if NextBerth(cat, buyer, context, parts[n - 1], PlacedFirst(cat, buyer, context, parts, n - 1).value).Err? {
        RefusedWhenApart(cat, buyer, context, parts, n - 1, a);
      }
    }
  }

  lemma {:induction false} Enumerate(slots: set<nat>) returns (e: seq<nat>)
    ensures |e| == |slots| && forall at :: at in e <==> at in slots
    ensures forall i, j :: 0 <= i < j < |e| ==> e[i] != e[j]
    decreases slots
  {
    e := [];
    if slots != {} {
      var at :| at in slots;
      e := Enumerate(slots - {at});
      e := e + [at];
    }
  }

  lemma {:induction false} DistinctWithin<T>(a: seq<T>, b: seq<T>)
    requires forall i, j :: 0 <= i < j < |a| ==> a[i] != a[j]
    requires forall i :: 0 <= i < |a| ==> a[i] in b
    ensures |a| <= |b|
  {
    if a != [] {
      var n := |a| - 1;
      var k :| 0 <= k < |b| && b[k] == a[n];
      var rest := b[..k] + b[k + 1..];
      forall i | 0 <= i < n
        ensures a[i] in rest
      {
        var m :| 0 <= m < |b| && b[m] == a[i];
        assert rest[if m < k then m else m - 1] == a[i];
      }
      DistinctWithin(a[..n], rest);
    }
  }

  /** Where a part may go besides the hero's bag. */
  function OtherSide(cat: Catalogue, item: ItemId): Side
    requires item in cat
  {
    if cat[item].secretShop then CourierBag else HomeStash
  }

  ghost function OtherSlots(cat: Catalogue, context: Context, item: ItemId): set<nat>
    requires item in cat
  {
    if cat[item].secretShop then CourierSlots(context) else FreeSlots(context.stash)
  }

  ghost function Berths(side: Side, slots: seq<nat>): seq<Berth> {
    seq(|slots|, i requires 0 <= i < |slots| => BerthAt(side, slots[i]))
  }

  /** While the hero's bag has room, first fit goes nowhere else. */
  lemma BagWhileRoom(cat: Catalogue, buyer: u8, context: Context, item: ItemId, reserved: seq<Berth>)
    requires HeroAtBoth(context) && Sold(cat, item) && cat[item].stackLimit == 0
    requires |reserved| < |FreeSlots(context.hero.value.bag)|
    ensures NextBerth(cat, buyer, context, item, reserved).Ok? &&
            NextBerth(cat, buyer, context, item, reserved).value.Bag?
  {
    var bag := context.hero.value.bag;
    UnreservedIsFirst(bag.slots, HeroBag, reserved, 0);
    if FirstUnreserved(bag.slots, HeroBag, reserved, 0).None? {
      var e := Enumerate(FreeSlots(bag));
      assert forall i :: 0 <= i < |e| ==> e[i] in e;
      DistinctWithin(Berths(HeroBag, e), reserved);
    }
  }

  lemma {:induction false} BagsFirst(cat: Catalogue, buyer: u8, context: Context, parts: seq<ItemId>, n: nat)
    requires HeroAtBoth(context) && n <= |parts| && n <= |FreeSlots(context.hero.value.bag)|
    requires forall i :: 0 <= i < |parts| ==> Sold(cat, parts[i]) && cat[parts[i]].stackLimit == 0
    ensures PlacedFirst(cat, buyer, context, parts, n).Ok?
    ensures forall i :: 0 <= i < n ==> PlacedFirst(cat, buyer, context, parts, n).value[i].Bag?
  {
    if n > 0 {
      BagsFirst(cat, buyer, context, parts, n - 1);
      BagWhileRoom(cat, buyer, context, parts[n - 1], PlacedFirst(cat, buyer, context, parts, n - 1).value);
    }
  }

  lemma {:induction false} PlacedPrefix(cat: Catalogue, buyer: u8, context: Context, parts: seq<ItemId>, k: nat, n: nat)
    requires k <= n <= |parts| && PlacedFirst(cat, buyer, context, parts, n).Ok?
    ensures PlacedFirst(cat, buyer, context, parts, k).Ok?
    ensures PlacedFirst(cat, buyer, context, parts, k).value == PlacedFirst(cat, buyer, context, parts, n).value[..k]
  {
    if k < n {
      PlacedPrefix(cat, buyer, context, parts, k, n - 1);
    }
  }

  /** As many parts of one shop as the hero has room for, then one more of the other shop than
      its own shelf has room for. */
  function Crowd(p: ItemId, n: nat, q: ItemId, m: nat): seq<ItemId> { seq(n + m, i => if i < n then p else q) }

  ghost function CrowdBerth(cat: Catalogue, p: ItemId, q: ItemId, bag: seq<nat>, spare: nat, other: seq<nat>,
      i: nat): Berth
    requires p in cat && q in cat && bag != [] && i <= |bag| + |other|
  {
    if i == 0 then BerthAt(OtherSide(cat, p), spare)
    else if i < |bag| then Bag(bag[i])
    else if i == |bag| then Bag(bag[0])
    else BerthAt(OtherSide(cat, q), other[i - |bag| - 1])
  }

  ghost function CrowdBerths(cat: Catalogue, p: ItemId, q: ItemId, bag: seq<nat>, spare: nat,
      other: seq<nat>): seq<Berth>
    requires p in cat && q in cat && bag != []
  {
    seq(|bag| + |other| + 1, i requires 0 <= i <= |bag| + |other| => CrowdBerth(cat, p, q, bag, spare, other, i))
  }

  /** A list first fit refuses though it could be placed: the parts that go elsewhere crowd out
      those that cannot. */
  lemma CrowdRefused(cat: Catalogue, buyer: u8, context: Context, p: ItemId, q: ItemId)
    requires HeroAtBoth(context) && FreeSlots(context.hero.value.bag) != {}
    requires Sold(cat, p) && Sold(cat, q) && cat[p].stackLimit == cat[q].stackLimit == 0
    requires cat[p].secretShop != cat[q].secretShop && OtherSlots(cat, context, p) != {}
    ensures !Complete(cat, buyer, context)
  {
    var bag := Enumerate(FreeSlots(context.hero.value.bag));
    var other := Enumerate(OtherSlots(cat, context, q));
    var spare :| spare in OtherSlots(cat, context, p);
    var h :| h in FreeSlots(context.hero.value.bag);
    assert h in bag;
    var n, m := |bag|, |other| + 1;
    var parts := Crowd(p, n, q, m);
    CrowdFits(cat, context, p, q, bag, spare, other);
    assert Unmerged(cat, parts);
    if PlacedFirst(cat, buyer, context, parts, n + m).Ok? {
      CrowdTooMany(cat, buyer, context, p, q, bag, other);
    }
  }

  lemma CrowdFits(cat: Catalogue, context: Context, p: ItemId, q: ItemId, bag: seq<nat>, spare: nat, other: seq<nat>)
    requires HeroAtBoth(context) && Sold(cat, p) && Sold(cat, q) && cat[p].secretShop != cat[q].secretShop
    requires bag != [] && (forall at :: at in bag ==> at in FreeSlots(context.hero.value.bag)) && forall i, j ::
             0 <= i < j < |bag| ==> bag[i] != bag[j]
    requires spare in OtherSlots(cat, context, p)
    requires (forall at :: at in other ==> at in OtherSlots(cat, context, q)) && forall i, j ::
             0 <= i < j < |other| ==> other[i] != other[j]
    ensures IsAssignment(cat, context, Crowd(p, |bag|, q, |other| + 1), CrowdBerths(cat, p, q, bag, spare, other))
  {
    var parts, a := Crowd(p, |bag|, q, |other| + 1), CrowdBerths(cat, p, q, bag, spare, other);
    forall i | 0 <= i < |a|
      ensures Allowed(cat, context, parts[i], a[i])
    {
      AllowedIn(cat, context, parts[i], a[i]);
      if 0 < i < |bag| {
        assert bag[i] in bag;
      } else if i == |bag| {
        assert bag[0] in bag;
      } else if i > |bag| {
        assert other[i - |bag| - 1] in other;
      }
    }
    forall i, j | 0 <= i < j < |a|
      ensures a[i] != a[j]
    {
      CrowdDistinct(cat, p, q, bag, spare, other, i, j);
    }
  }

  lemma CrowdDistinct(cat: Catalogue, p: ItemId, q: ItemId, bag: seq<nat>, spare: nat, other: seq<nat>, i: nat, j: nat)
    requires p in cat && q in cat && cat[p].secretShop != cat[q].secretShop
    requires bag != [] && forall i, j :: 0 <= i < j < |bag| ==> bag[i] != bag[j]
    requires forall i, j :: 0 <= i < j < |other| ==> other[i] != other[j]
    requires i < j <= |bag| + |other|
    ensures CrowdBerth(cat, p, q, bag, spare, other, i) != CrowdBerth(cat, p, q, bag, spare, other, j)
  {
  }

  lemma CrowdTooMany(cat: Catalogue, buyer: u8, context: Context, p: ItemId, q: ItemId, bag: seq<nat>, other: seq<nat>)
    requires HeroAtBoth(context) && Sold(cat, p) && Sold(cat, q) && cat[p].stackLimit == cat[q].stackLimit == 0
    requires |bag| == |FreeSlots(context.hero.value.bag)|
    requires forall at :: at in FreeSlots(context.hero.value.bag) ==> at in bag
    requires forall at :: at in OtherSlots(cat, context, q) ==> at in other
    ensures PlacedFirst(cat, buyer, context, Crowd(p, |bag|, q, |other| + 1), |bag| + |other| + 1).Err?
  {
    var n, m := |bag|, |other| + 1;
    var parts := Crowd(p, n, q, m);
    if PlacedFirst(cat, buyer, context, parts, n + m).Ok? {
      var berths := PlacedFirst(cat, buyer, context, parts, n + m).value;
      BagsFirst(cat, buyer, context, parts, n);
      PlacedPrefix(cat, buyer, context, parts, n, n + m);
      PlacedWell(cat, buyer, context, parts, n + m);
      assert parts[..n + m] == parts;
      assert forall i :: 0 <= i < n ==> berths[i] == berths[..n][i];
      hide PlacedFirst, NextBerth;
      forall j | n <= j < n + m
        ensures berths[j] in Berths(OtherSide(cat, q), other)
      {
        LateBerth(cat, context, p, q, bag, other, berths, j);
      }
      DistinctWithin(berths[n..], Berths(OtherSide(cat, q), other));
    }
  }

  lemma LateBerth(cat: Catalogue, context: Context, p: ItemId, q: ItemId, bag: seq<nat>, other: seq<nat>,
      berths: seq<Berth>, j: nat)
    requires HeroAtBoth(context) && Sold(cat, p) && Sold(cat, q)
    requires forall at :: at in FreeSlots(context.hero.value.bag) ==> at in bag
    requires forall at :: at in OtherSlots(cat, context, q) ==> at in other
    requires IsAssignment(cat, context, Crowd(p, |bag|, q, |other| + 1), berths) && |bag| <= j < |berths|
    requires forall i :: 0 <= i < |bag| ==> berths[i].Bag?
    ensures berths[j] in Berths(OtherSide(cat, q), other)
  {
    var parts := Crowd(p, |bag|, q, |other| + 1);
    AllowedIn(cat, context, q, berths[j]);
    assert Allowed(cat, context, parts[j], berths[j]);
    if berths[j].Bag? {
      var early := berths[..|bag|] + [berths[j]];
      forall i | 0 <= i < |early|
        ensures early[i] in Berths(HeroBag, bag)
      {
        var k := if i < |bag| then i else j;
        AllowedIn(cat, context, parts[k], berths[k]);
        var at :| 0 <= at < |bag| && bag[at] == early[i].at;
        assert Berths(HeroBag, bag)[at] == early[i];
      }
      DistinctWithin(early, Berths(HeroBag, bag));
    } else {
      assert parts[j] == q && berths[j].at in OtherSlots(cat, context, q);
      var at :| 0 <= at < |other| && other[at] == berths[j].at;
      assert Berths(OtherSide(cat, q), other)[at] == berths[j];
    }
  }

  /** With parts of both shops on sale, first fit is complete exactly when the hero does not
      serve both shops while there is room elsewhere too. */
  lemma CompleteUnlessContended(cat: Catalogue, buyer: u8, context: Context, x: ItemId, y: ItemId)
    requires Sold(cat, x) && cat[x].stackLimit == 0 && !cat[x].secretShop
    requires Sold(cat, y) && cat[y].stackLimit == 0 && cat[y].secretShop
    ensures Complete(cat, buyer, context) <==> !Contended(context)
  {
    if Contended(context) {
      if FreeSlots(context.stash) != {} {
        CrowdRefused(cat, buyer, context, x, y);
      } else {
        CrowdRefused(cat, buyer, context, y, x);
      }
    } else {
      forall parts, a | Unmerged(cat, parts) && IsAssignment(cat, context, parts, a)
        ensures PlacedFirst(cat, buyer, context, parts, |parts|).Ok?
      {
        UncontendedComplete(cat, buyer, context, parts, a, |parts|);
      }
    }
  }
}
