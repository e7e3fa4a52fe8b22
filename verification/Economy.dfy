/** What a purchase still takes: economy.rs spends the parts held down a recipe tree. The
    catalogue is any that its build-time checks (item_table.rs) let through. */
module Economy {
  import opened Items
  import opened Machine
  import Stacking

  datatype Recipe = Recipe(parts: seq<ItemId>, byCharges: bool, mode: Option<Attribute>)

  datatype ItemDef = ItemDef(cost: i32, components: seq<ItemId>, alternatives: seq<Recipe>,
                             chargeRecipes: seq<seq<ItemId>>, mode: Option<Attribute>)
  {
    /** The ways to build it: from components, from alternatives, from charges. */
    function Recipes(): seq<Recipe> {
      (if components == [] then [] else [Recipe(components, false, mode)]) +
      alternatives + seq(|chargeRecipes|, i requires 0 <= i < |chargeRecipes| => Recipe(chargeRecipes[i], true, None))
    }
  }

  /** The live items; a retired or unknown id has no row. */
  type Catalogue = map<ItemId, ItemDef>

  function RecipesOf(cat: Catalogue, id: ItemId): seq<Recipe> { if id in cat then cat[id].Recipes() else [] }

  function FirstParts(cat: Catalogue, id: ItemId): seq<ItemId> {
    if RecipesOf(cat, id) == [] then [] else RecipesOf(cat, id)[0].parts
  }

  function CostOf(cat: Catalogue, id: ItemId): int { if id in cat then cat[id].cost else 0 }

  function Cost(cat: Catalogue, items: seq<ItemId>): int {
    if items == [] then 0 else CostOf(cat, items[0]) + Cost(cat, items[1..])
  }

  // ---------- the catalogue's checks ----------

  /** A height of each item above its first recipe's parts: what makes the catalogue acyclic. */
  type Ranks = map<ItemId, nat>

  ghost function Rank(ranks: Ranks, id: ItemId): nat { if id in ranks then ranks[id] else 0 }

  ghost function Height(ranks: Ranks, parts: seq<ItemId>): nat {
    if parts == [] then 0 else Max(Rank(ranks, parts[0]) + 1, Height(ranks, parts[1..]))
  }

  ghost predicate Acyclic(cat: Catalogue, ranks: Ranks) {
    forall id: ItemId :: Height(ranks, FirstParts(cat, id)) <= Rank(ranks, id)
  }

  ghost predicate CostsArePrices(cat: Catalogue) { forall id :: id in cat ==> cat[id].cost >= 0 }

  /** A built item costs its parts, whichever recipe of parts it is built by. */
  ghost predicate RecipesCostAlike(cat: Catalogue) {
    forall id :: id in cat ==>
      (cat[id].components != [] ==> cat[id].cost == Cost(cat, cat[id].components)) &&
      forall r :: r in cat[id].alternatives ==>
        !r.byCharges && cat[id].components != [] && Cost(cat, r.parts) == Cost(cat, cat[id].components)
  }

  // ---------- spending ----------

  /** What is held and not yet spent, and what is to be bought. */
  datatype Pool = Pool(held: seq<ItemId>, wanted: seq<ItemId>)

  function FirstAt(held: seq<ItemId>, id: ItemId): nat
    requires id in held
    ensures FirstAt(held, id) < |held| && held[FirstAt(held, id)] == id
  {
    if held[0] == id then 0 else 1 + FirstAt(held[1..], id)
  }

  function Without(held: seq<ItemId>, id: ItemId): seq<ItemId>
    requires id in held
  {
    held[..FirstAt(held, id)] + held[FirstAt(held, id) + 1..]
  }

  lemma WithoutIsOneLess(held: seq<ItemId>, id: ItemId)
    requires id in held
    ensures multiset(Without(held, id)) == multiset(held) - multiset{id}
  {
    var at := FirstAt(held, id);
    assert held == held[..at] + [id] + held[at + 1..];
  }

  /** What the parts still cost, one after the other: a part held is spent; one bought whole is
      wanted; any other is asked for by its own first recipe. */
  ghost function Beyond(cat: Catalogue, ranks: Ranks, parts: seq<ItemId>, pool: Pool): Pool
    requires Acyclic(cat, ranks)
    decreases Height(ranks, parts), |parts|
  {
    if parts == [] then pool
    else Beyond(cat, ranks, parts[1..], BeyondOne(cat, ranks, parts[0], pool))
  }

  ghost function BeyondOne(cat: Catalogue, ranks: Ranks, item: ItemId, pool: Pool): Pool
    requires Acyclic(cat, ranks)
    decreases Rank(ranks, item) + 1, 0
  {
    if item in pool.held then Pool(Without(pool.held, item), pool.wanted)
    else if FirstParts(cat, item) == [] then Pool(pool.held, pool.wanted + [item])
    else Beyond(cat, ranks, FirstParts(cat, item), pool)
  }

  /** The two vectors one recipe is laid out in. */
  class Layout {
    var held: seq<ItemId>
    var wanted: seq<ItemId>

    ghost function Now(): Pool reads this { Pool(held, wanted) }

    constructor (owned: seq<ItemId>)
      ensures Now() == Pool(owned, [])
    {
      held, wanted := owned, [];
    }

    method PartsBeyond(cat: Catalogue, ghost ranks: Ranks, item: ItemId)
      requires Acyclic(cat, ranks)
      modifies this
      ensures Now() == BeyondOne(cat, ranks, item, old(Now()))
      decreases Rank(ranks, item) + 1, 0
    {
      if item in held {
        held := Without(held, item);
        return;
      }
      var parts := FirstParts(cat, item);
      if parts == [] {
        wanted := wanted + [item];
        return;
      }
      AllBeyond(cat, ranks, parts);
    }

    /** The loop over a recipe's parts. */
    method AllBeyond(cat: Catalogue, ghost ranks: Ranks, parts: seq<ItemId>)
      requires Acyclic(cat, ranks)
      modifies this
      ensures Now() == Beyond(cat, ranks, parts, old(Now()))
      decreases Height(ranks, parts), 1
    {
      for k := 0 to |parts|
        invariant Beyond(cat, ranks, parts[k..], Now()) == Beyond(cat, ranks, parts, old(Now()))
      {
        HeightBounds(ranks, parts, k);
        PartsBeyond(cat, ranks, parts[k]);
        assert parts[k..][1..] == parts[k + 1..];
      }
    }
  }

  lemma {:induction false} HeightBounds(ranks: Ranks, parts: seq<ItemId>, k: nat)
    requires k < |parts|
    ensures Rank(ranks, parts[k]) < Height(ranks, parts)
  {
    if k > 0 {
      HeightBounds(ranks, parts[1..], k - 1);
    }
  }

  // ---------- conservation ----------

  lemma {:induction false} CostSplits(cat: Catalogue, a: seq<ItemId>, b: seq<ItemId>)
    ensures Cost(cat, a + b) == Cost(cat, a) + Cost(cat, b)
  {
    if a == [] {
      assert a + b == b;
    } else {
      assert (a + b)[1..] == a[1..] + b;
      CostSplits(cat, a[1..], b);
    }
  }

  lemma WithoutCost(cat: Catalogue, held: seq<ItemId>, id: ItemId)
    requires id in held
    ensures Cost(cat, Without(held, id)) == Cost(cat, held) - CostOf(cat, id)
  {
    var at := FirstAt(held, id);
    assert held == held[..at] + ([id] + held[at + 1..]);
    assert ([id] + held[at + 1..])[1..] == held[at + 1..];
    CostSplits(cat, held[..at], [id] + held[at + 1..]);
    CostSplits(cat, held[..at], held[at + 1..]);
  }

  /** Nothing met on the way down is built by charges before anything else. */
  ghost predicate BoughtByParts(cat: Catalogue, ranks: Ranks, parts: seq<ItemId>)
    requires Acyclic(cat, ranks)
    decreases Height(ranks, parts), |parts|
  {
    parts == [] ||
    (var first := RecipesOf(cat, parts[0]);
     (first != [] ==> !first[0].byCharges && PartsBelow(cat, ranks, parts[0])) && BoughtByParts(cat, ranks, parts[1..]))
  }

  ghost predicate PartsBelow(cat: Catalogue, ranks: Ranks, item: ItemId)
    requires Acyclic(cat, ranks)
    decreases Rank(ranks, item) + 1, 0
  {
    BoughtByParts(cat, ranks, FirstParts(cat, item))
  }

  lemma FirstPartsCost(cat: Catalogue, item: ItemId)
    requires RecipesCostAlike(cat)
    requires RecipesOf(cat, item) != [] && !RecipesOf(cat, item)[0].byCharges
    ensures CostOf(cat, item) == Cost(cat, FirstParts(cat, item))
  {
    var def := cat[item];
    assert def.alternatives == [] || def.alternatives[0] in def.alternatives;
  }

  ghost predicate Whole(cat: Catalogue, items: seq<ItemId>) {
    forall id :: id in items ==> FirstParts(cat, id) == []
  }

  /** What laying parts out did to the pool. */
  ghost predicate Conserved(cat: Catalogue, before: Pool, after: Pool) {
    multiset(after.held) <= multiset(before.held) &&
    before.wanted <= after.wanted && Whole(cat, after.wanted[|before.wanted|..])
  }

  /** The price of the parts is paid by what is spent and what is wanted. */
  ghost predicate Paid(cat: Catalogue, before: Pool, after: Pool, price: int) {
    Cost(cat, after.wanted) - Cost(cat, before.wanted) + Cost(cat, before.held) - Cost(cat, after.held) == price
  }

  lemma ConservedOn(cat: Catalogue, before: Pool, next: Pool, after: Pool)
    requires Conserved(cat, before, next) && Conserved(cat, next, after)
    ensures Conserved(cat, before, after)
  {
    hide FirstParts;
    var first, rest := next.wanted[|before.wanted|..], after.wanted[|next.wanted|..];
    assert after.wanted[|before.wanted|..] == first + rest;
    forall id | id in first + rest
      ensures FirstParts(cat, id) == []
    {
      assert id in first || id in rest;
    }
  }

  lemma ConservedStill(cat: Catalogue, pool: Pool)
    ensures Conserved(cat, pool, pool)
  {
  }

  lemma {:induction false} BeyondConserves(cat: Catalogue, ranks: Ranks, parts: seq<ItemId>, pool: Pool)
    requires Acyclic(cat, ranks)
    ensures Conserved(cat, pool, Beyond(cat, ranks, parts, pool))
    decreases Height(ranks, parts), |parts|
  {
    ConservedStill(cat, pool);
    if parts != [] {
      var next := BeyondOne(cat, ranks, parts[0], pool);
      BeyondOneConserves(cat, ranks, parts[0], pool);
      BeyondConserves(cat, ranks, parts[1..], next);
      hide Conserved, BeyondOne;
      ConservedOn(cat, pool, next, Beyond(cat, ranks, parts[1..], next));
    }
  }

  lemma {:induction false} BeyondOneConserves(cat: Catalogue, ranks: Ranks, item: ItemId, pool: Pool)
    requires Acyclic(cat, ranks)
    ensures Conserved(cat, pool, BeyondOne(cat, ranks, item, pool))
    decreases Rank(ranks, item) + 1, 0
  {
    if item in pool.held {
      WithoutIsOneLess(pool.held, item);
    } else if FirstParts(cat, item) != [] {
      BeyondConserves(cat, ranks, FirstParts(cat, item), pool);
    }
  }

  lemma {:induction false} BeyondPays(cat: Catalogue, ranks: Ranks, parts: seq<ItemId>, pool: Pool)
    requires Acyclic(cat, ranks) && RecipesCostAlike(cat) && BoughtByParts(cat, ranks, parts)
    ensures Paid(cat, pool, Beyond(cat, ranks, parts, pool), Cost(cat, parts))
    decreases Height(ranks, parts), |parts|
  {
    if parts != [] {
      BeyondOnePays(cat, ranks, parts[0], pool);
      BeyondPays(cat, ranks, parts[1..], BeyondOne(cat, ranks, parts[0], pool));
    }
  }

  lemma {:induction false} BeyondOnePays(cat: Catalogue, ranks: Ranks, item: ItemId, pool: Pool)
    requires Acyclic(cat, ranks) && RecipesCostAlike(cat)
    requires RecipesOf(cat, item) != [] ==> !RecipesOf(cat, item)[0].byCharges && PartsBelow(cat, ranks, item)
    ensures Paid(cat, pool, BeyondOne(cat, ranks, item, pool), CostOf(cat, item))
    decreases Rank(ranks, item) + 1, 0
  {
    if item in pool.held {
      WithoutCost(cat, pool.held, item);
    } else if FirstParts(cat, item) == [] {
      CostSplits(cat, pool.wanted, [item]);
      assert Cost(cat, [item]) == CostOf(cat, item);
    } else {
      FirstPartsCost(cat, item);
      BeyondPays(cat, ranks, FirstParts(cat, item), pool);
    }
  }

  // ---------- holding more ----------

  /** Of two pools, the second holds all the first does and wants nothing dearer. */
  ghost predicate Richer(cat: Catalogue, poor: Pool, rich: Pool) {
    multiset(poor.held) <= multiset(rich.held) && Cost(cat, rich.wanted) <= Cost(cat, poor.wanted)
  }

  lemma {:induction false} CostNonNegative(cat: Catalogue, items: seq<ItemId>)
    requires CostsArePrices(cat)
    ensures Cost(cat, items) >= 0
  {
    if items != [] {
      CostNonNegative(cat, items[1..]);
    }
  }

  /** Holding more never costs more, and leaves more. */
  lemma {:induction false} RicherStays(cat: Catalogue, ranks: Ranks, parts: seq<ItemId>, poor: Pool, rich: Pool)
    requires Acyclic(cat, ranks) && CostsArePrices(cat) && Richer(cat, poor, rich)
    ensures Richer(cat, Beyond(cat, ranks, parts, poor), Beyond(cat, ranks, parts, rich))
    decreases Height(ranks, parts), |parts|
  {
    if parts != [] {
      RicherStaysOne(cat, ranks, parts[0], poor, rich);
      RicherStays(cat, ranks, parts[1..], BeyondOne(cat, ranks, parts[0], poor), BeyondOne(cat, ranks, parts[0], rich));
    }
  }

  lemma {:induction false} RicherStaysOne(cat: Catalogue, ranks: Ranks, item: ItemId, poor: Pool, rich: Pool)
    requires Acyclic(cat, ranks) && CostsArePrices(cat) && Richer(cat, poor, rich)
    ensures Richer(cat, BeyondOne(cat, ranks, item, poor), BeyondOne(cat, ranks, item, rich))
    decreases Rank(ranks, item) + 1, 0
  {
    if item in rich.held {
      WithoutIsOneLess(rich.held, item);
      if item in poor.held {
        WithoutIsOneLess(poor.held, item);
      } else {
        BeyondOneConserves(cat, ranks, item, poor);
        BeyondOneCosts(cat, ranks, item, poor);
        assert item !in multiset(poor.held);
      }
    } else {
      assert item !in multiset(rich.held);
      if FirstParts(cat, item) == [] {
        CostSplits(cat, poor.wanted, [item]);
        CostSplits(cat, rich.wanted, [item]);
      } else {
        RicherStays(cat, ranks, FirstParts(cat, item), poor, rich);
      }
    }
  }

  /** Laying parts out only adds to what is wanted. */
  lemma BeyondOneCosts(cat: Catalogue, ranks: Ranks, item: ItemId, pool: Pool)
    requires Acyclic(cat, ranks) && CostsArePrices(cat)
    ensures Cost(cat, pool.wanted) <= Cost(cat, BeyondOne(cat, ranks, item, pool).wanted)
  {
    BeyondOneConserves(cat, ranks, item, pool);
    WantedGrows(cat, pool, BeyondOne(cat, ranks, item, pool));
  }

  lemma WantedGrows(cat: Catalogue, before: Pool, after: Pool)
    requires Conserved(cat, before, after) && CostsArePrices(cat)
    ensures Cost(cat, before.wanted) <= Cost(cat, after.wanted)
  {
    var more := after.wanted[|before.wanted|..];
    assert after.wanted == before.wanted + more;
    CostSplits(cat, before.wanted, more);
    CostNonNegative(cat, more);
  }

  // ---------- what is bought completes the build ----------

  /** With the parts wanted bought, and any others bought whole beside them, the same parts ask
      for nothing and leave what they left before. */
  lemma {:induction false} BoughtCompletes(cat: Catalogue, ranks: Ranks, parts: seq<ItemId>, pool: Pool,
      stocked: Pool, beside: multiset<ItemId>)
    requires Acyclic(cat, ranks)
    requires Stocked(cat, pool, Beyond(cat, ranks, parts, pool), stocked, beside)
    ensures Done(Beyond(cat, ranks, parts, pool), stocked, Beyond(cat, ranks, parts, stocked), beside)
    decreases Height(ranks, parts), |parts|
  {
    if parts == [] {
      assert pool.wanted[|pool.wanted|..] == [];
    } else {
      var next := BeyondOne(cat, ranks, parts[0], pool);
      var end := Beyond(cat, ranks, parts[1..], next);
      var mid := BeyondOne(cat, ranks, parts[0], stocked);
      assert Beyond(cat, ranks, parts, pool) == end &&
        Beyond(cat, ranks, parts, stocked) == Beyond(cat, ranks, parts[1..], mid);
      BeyondOneConserves(cat, ranks, parts[0], pool);
      BeyondConserves(cat, ranks, parts[1..], next);
      hide Beyond, BeyondOne, Conserved, Stocked;
      SplitStock(cat, pool, next, end, stocked, beside);
      BoughtCompletesOne(cat, ranks, parts[0], pool, stocked, beside + multiset(Later(next, end)));
      PassStock(cat, pool, next, end, stocked, mid, beside);
      BoughtCompletes(cat, ranks, parts[1..], next, mid, beside);
    }
  }

  function Later(next: Pool, end: Pool): seq<ItemId> {
    if |next.wanted| <= |end.wanted| then end.wanted[|next.wanted|..] else []
  }

  /** What the later parts want is bought beside what the first wants. */
  lemma SplitStock(cat: Catalogue, pool: Pool, next: Pool, end: Pool, stocked: Pool, beside: multiset<ItemId>)
    requires Conserved(cat, pool, next) && Conserved(cat, next, end) && Stocked(cat, pool, end, stocked, beside)
    ensures Stocked(cat, pool, next, stocked, beside + multiset(Later(next, end)))
  {
    var now, later := next.wanted[|pool.wanted|..], end.wanted[|next.wanted|..];
    assert end.wanted[|pool.wanted|..] == now + later;
    assert multiset(now + later) == multiset(now) + multiset(later);
    WholeLater(cat, later);
  }

  lemma PassStock(cat: Catalogue, pool: Pool, next: Pool, end: Pool, stocked: Pool, mid: Pool, beside: multiset<ItemId>)
    requires Conserved(cat, next, end) && Stocked(cat, pool, end, stocked, beside)
    requires Done(next, stocked, mid, beside + multiset(Later(next, end)))
    ensures Stocked(cat, next, end, mid, beside)
  {
  }

  lemma WholeLater(cat: Catalogue, later: seq<ItemId>)
    requires Whole(cat, later)
    ensures forall id :: id in multiset(later) ==> id in later && FirstParts(cat, id) == []
  {
  }

  /** A pool that holds what the other does, what laying out its parts wants, and more. */
  ghost predicate Stocked(cat: Catalogue, before: Pool, after: Pool, stocked: Pool, beside: multiset<ItemId>) {
    before.wanted <= after.wanted &&
    multiset(stocked.held) == multiset(before.held) + multiset(after.wanted[|before.wanted|..]) + beside &&
    forall id :: id in beside ==> FirstParts(cat, id) == []
  }

  ghost predicate Done(after: Pool, stocked: Pool, end: Pool, beside: multiset<ItemId>) {
    end.wanted == stocked.wanted && multiset(end.held) == multiset(after.held) + beside
  }

  lemma {:induction false} BoughtCompletesOne(cat: Catalogue, ranks: Ranks, item: ItemId, pool: Pool, stocked: Pool,
      beside: multiset<ItemId>)
    requires Acyclic(cat, ranks)
    requires Stocked(cat, pool, BeyondOne(cat, ranks, item, pool), stocked, beside)
    ensures Done(BeyondOne(cat, ranks, item, pool), stocked, BeyondOne(cat, ranks, item, stocked), beside)
    decreases Rank(ranks, item) + 1, 0
  {
    hide Beyond, Stocked, Done;
    if item in pool.held {
      HeldDone(cat, item, pool, stocked, beside);
    } else if FirstParts(cat, item) == [] {
      WantedDone(cat, item, pool, stocked, beside);
    } else {
      BeyondOneConserves(cat, ranks, item, pool);
      NotInStock(cat, pool, BeyondOne(cat, ranks, item, pool), stocked, beside, item);
      BoughtCompletes(cat, ranks, FirstParts(cat, item), pool, stocked, beside);
    }
  }

  lemma HeldDone(cat: Catalogue, item: ItemId, pool: Pool, stocked: Pool, beside: multiset<ItemId>)
    requires item in pool.held && Stocked(cat, pool, Pool(Without(pool.held, item), pool.wanted), stocked, beside)
    ensures item in stocked.held
    ensures Done(Pool(Without(pool.held, item), pool.wanted), stocked,
            Pool(Without(stocked.held, item), stocked.wanted), beside)
  {
    assert pool.wanted[|pool.wanted|..] == [];
    WithoutIsOneLess(pool.held, item);
    assert item in multiset(stocked.held);
    WithoutIsOneLess(stocked.held, item);
  }

  lemma WantedDone(cat: Catalogue, item: ItemId, pool: Pool, stocked: Pool, beside: multiset<ItemId>)
    requires item !in pool.held && Stocked(cat, pool, Pool(pool.held, pool.wanted + [item]), stocked, beside)
    ensures item in stocked.held
    ensures Done(Pool(pool.held, pool.wanted + [item]), stocked, Pool(Without(stocked.held, item), stocked.wanted),
            beside)
  {
    assert (pool.wanted + [item])[|pool.wanted|..] == [item];
    assert item in multiset(stocked.held);
    WithoutIsOneLess(stocked.held, item);
  }

  /** Only items bought whole are stocked beside what was held. */
  lemma NotInStock(cat: Catalogue, before: Pool, after: Pool, stocked: Pool, beside: multiset<ItemId>, item: ItemId)
    requires Stocked(cat, before, after, stocked, beside) && Conserved(cat, before, after)
    requires item !in before.held && FirstParts(cat, item) != []
    ensures item !in stocked.held
  {
    assert item in stocked.held <==> item in multiset(stocked.held);
  }

  // ---------- the choice among recipes ----------

  /** `i32::saturating_add`, folded over what is wanted. */
  function SatCost(cat: Catalogue, items: seq<ItemId>): i32 {
    if items == [] then 0
    else Clamp(SatCost(cat, items[..|items| - 1]) + CostOf(cat, items[|items| - 1]), I32_MIN, I32_MAX)
  }

  lemma {:induction false} SatCostIsCost(cat: Catalogue, items: seq<ItemId>)
    requires CostsArePrices(cat)
    ensures SatCost(cat, items) == Min(Cost(cat, items), I32_MAX)
  {
    if items != [] {
      var rest, last := items[..|items| - 1], items[|items| - 1];
      assert items == rest + [last];
      CostSplits(cat, rest, [last]);
      assert Cost(cat, [last]) == CostOf(cat, last);
      CostNonNegative(cat, rest);
      SatCostIsCost(cat, rest);
    }
  }

  /** An item costs its own price, and one no longer in the catalogue nothing. */
  lemma CostOfOne(cat: Catalogue, id: ItemId)
    ensures Cost(cat, [id]) == if id in cat then cat[id].cost else 0
  {
    assert [id][1..] == [];
  }

  datatype Requirements = Requirements(wanted: seq<ItemId>, remaining: seq<ItemId>)

  ghost function Tried(cat: Catalogue, ranks: Ranks, recipe: Recipe, held: seq<ItemId>): Pool
    requires Acyclic(cat, ranks)
  {
    Beyond(cat, ranks, recipe.parts, Pool(held, []))
  }

  ghost function Price(cat: Catalogue, ranks: Ranks, recipe: Recipe, held: seq<ItemId>): i32
    requires Acyclic(cat, ranks)
  {
    SatCost(cat, Tried(cat, ranks, recipe, held).wanted)
  }

  predicate Own(recipe: Recipe, primary: Option<Attribute>) { recipe.mode.Some? && recipe.mode == primary }

  /** Recipe `k` is the choice before recipe `j`: it costs less; or as much and is the buyer's
      own attribute's; or neither tells them apart and it comes first. */
  ghost predicate Before(cat: Catalogue, ranks: Ranks, recipes: seq<Recipe>, held: seq<ItemId>,
      primary: Option<Attribute>, k: nat, j: nat)
    requires Acyclic(cat, ranks) && k < |recipes| && j < |recipes|
  {
    var p, q := Price(cat, ranks, recipes[k], held), Price(cat, ranks, recipes[j], held);
    var own, other := Own(recipes[k], primary), Own(recipes[j], primary);
    p < q || (p == q && ((own && !other) || (own == other && k <= j)))
  }

  /** Recipe `k` is the choice among the first `n`. */
  ghost predicate ChosenOf(cat: Catalogue, ranks: Ranks, recipes: seq<Recipe>, held: seq<ItemId>,
      primary: Option<Attribute>, n: nat, k: nat)
    requires Acyclic(cat, ranks) && n <= |recipes|
  {
    k < n && forall j :: 0 <= j < n ==> Before(cat, ranks, recipes, held, primary, k, j)
  }

  ghost predicate Chosen(cat: Catalogue, ranks: Ranks, recipes: seq<Recipe>, held: seq<ItemId>,
      primary: Option<Attribute>, k: nat)
    requires Acyclic(cat, ranks)
  {
    ChosenOf(cat, ranks, recipes, held, primary, |recipes|, k)
  }

  /** What a recipe still takes of the buyer, to the most a price can be. */
  ghost function Due(cat: Catalogue, ranks: Ranks, recipe: Recipe, held: seq<ItemId>): int
    requires Acyclic(cat, ranks)
  {
    Min(Cost(cat, Beyond(cat, ranks, recipe.parts, Pool(held, [])).wanted), I32_MAX)
  }

  predicate SetTo(recipe: Recipe, primary: Option<Attribute>) {
    match (recipe.mode, primary)
    case (Some(mode), Some(attribute)) => mode == attribute
    case _ => false
  }

  /** Due less; or as little, and set to the buyer's attribute; or alike in both, and no later. */
  ghost predicate Better(cat: Catalogue, ranks: Ranks, recipes: seq<Recipe>, held: seq<ItemId>,
                         primary: Option<Attribute>, k: nat, j: nat)
    requires Acyclic(cat, ranks) && k < |recipes| && j < |recipes|
  {
    var mine, its := Due(cat, ranks, recipes[k], held), Due(cat, ranks, recipes[j], held);
    mine <= its &&
    (mine == its ==>
       (SetTo(recipes[j], primary) ==> SetTo(recipes[k], primary)) &&
       (SetTo(recipes[j], primary) == SetTo(recipes[k], primary) ==> k <= j))
  }

  lemma BeforeIsBetter(cat: Catalogue, ranks: Ranks, recipes: seq<Recipe>, held: seq<ItemId>,
                       primary: Option<Attribute>, k: nat, j: nat)
    requires Acyclic(cat, ranks) && CostsArePrices(cat) && k < |recipes| && j < |recipes|
    ensures Before(cat, ranks, recipes, held, primary, k, j) <==> Better(cat, ranks, recipes, held, primary, k, j)
  {
    SatCostIsCost(cat, Tried(cat, ranks, recipes[k], held).wanted);
    SatCostIsCost(cat, Tried(cat, ranks, recipes[j], held).wanted);
    OwnIsSet(recipes[k], primary);
    OwnIsSet(recipes[j], primary);
    assert Price(cat, ranks, recipes[k], held) == Due(cat, ranks, recipes[k], held);
    assert Price(cat, ranks, recipes[j], held) == Due(cat, ranks, recipes[j], held);
    hide Price, Due, Own, SetTo;
  }

  lemma OwnIsSet(recipe: Recipe, primary: Option<Attribute>)
    ensures Own(recipe, primary) == SetTo(recipe, primary)
  {
  }

  /** The recipe chosen is the one better than every other, or itself: and so the only one. */
  lemma ChosenIsBest(cat: Catalogue, ranks: Ranks, recipes: seq<Recipe>, held: seq<ItemId>, primary: Option<Attribute>,
                     k: nat)
    requires Acyclic(cat, ranks) && CostsArePrices(cat) && k < |recipes|
    ensures Chosen(cat, ranks, recipes, held, primary, k) <==>
            forall j :: 0 <= j < |recipes| ==> Better(cat, ranks, recipes, held, primary, k, j)
  {
    forall j | 0 <= j < |recipes|
      ensures Before(cat, ranks, recipes, held, primary, k, j) <==> Better(cat, ranks, recipes, held, primary, k, j)
    {
      BeforeIsBetter(cat, ranks, recipes, held, primary, k, j);
    }
    hide Before, Better;
  }

  lemma ChooseNext(cat: Catalogue, ranks: Ranks, recipes: seq<Recipe>, held: seq<ItemId>, primary: Option<Attribute>,
      n: nat, k: nat)
    requires Acyclic(cat, ranks) && n < |recipes| && (n > 0 ==> ChosenOf(cat, ranks, recipes, held, primary, n, k))
    ensures ChosenOf(cat, ranks, recipes, held, primary, n + 1,
                     if n == 0 || (!Before(cat, ranks, recipes, held, primary, k, n)) then n else k)
  {
    var c := if n == 0 || (!Before(cat, ranks, recipes, held, primary, k, n)) then n else k;
    forall j | 0 <= j < n + 1
      ensures Before(cat, ranks, recipes, held, primary, c, j)
    {
      if j < n { assert Before(cat, ranks, recipes, held, primary, k, j); }
    }
  }

  method PurchaseRequirements(cat: Catalogue, ghost ranks: Ranks, item: ItemId, held: seq<ItemId>,
      primary: Option<Attribute>)
    returns (r: Requirements, ghost chosen: nat)
    requires Acyclic(cat, ranks)
    ensures RecipesOf(cat, item) == [] ==> r == Requirements([item], held)
    ensures RecipesOf(cat, item) != [] ==> Chosen(cat, ranks, RecipesOf(cat, item), held, primary, chosen)
    ensures RecipesOf(cat, item) != [] ==>
              Pool(r.remaining, r.wanted) == Tried(cat, ranks, RecipesOf(cat, item)[chosen], held)
  {
    hide Beyond, ChosenOf, Own, SatCost;
    var recipes := RecipesOf(cat, item);
    var best: Option<(i32, bool, Requirements)> := None;
    chosen := 0;
    for i := 0 to |recipes|
      invariant i == 0 <==> best == None
      invariant i > 0 ==> ChosenOf(cat, ranks, recipes, held, primary, i, chosen) && chosen < i
      invariant i > 0 ==> Pool(best.value.2.remaining, best.value.2.wanted) == Tried(cat, ranks, recipes[chosen], held)
      invariant i > 0 ==>
                best.value.0 == Price(cat, ranks, recipes[chosen], held) &&
                best.value.1 == Own(recipes[chosen], primary)
    {
      var layout := new Layout(held);
      layout.AllBeyond(cat, ranks, recipes[i].parts);
      var cost := TotalCost(cat, layout.wanted);
      var own := Own(recipes[i], primary);
      ChooseNext(cat, ranks, recipes, held, primary, i, chosen);
      if best == None || cost < best.value.0 || (cost == best.value.0 && own && !best.value.1) {
        best := Some((cost, own, Requirements(layout.wanted, layout.held)));
        chosen := i;
      }
    }
    match best
    case None => r := Requirements([item], held);
    case Some(found) => r := found.2;
  }

  method TotalCost(cat: Catalogue, wanted: seq<ItemId>) returns (sum: i32)
    ensures sum == SatCost(cat, wanted)
  {
    sum := 0;
    for i := 0 to |wanted|
      invariant sum == SatCost(cat, wanted[..i])
    {
      assert wanted[..i + 1][..i] == wanted[..i];
      sum := Clamp(sum + CostOf(cat, wanted[i]), I32_MIN, I32_MAX);
    }
    assert wanted[..|wanted|] == wanted;
  }

  // ---------- what a purchase promises ----------

  /** The least any recipe asks for falls as more is held. */
  lemma HoldingMoreCostsNoMore(cat: Catalogue, ranks: Ranks, recipes: seq<Recipe>, primary: Option<Attribute>,
                               poor: seq<ItemId>, k: nat, rich: seq<ItemId>, j: nat)
    requires Acyclic(cat, ranks) && CostsArePrices(cat) && multiset(poor) <= multiset(rich)
    requires Chosen(cat, ranks, recipes, poor, primary, k) && Chosen(cat, ranks, recipes, rich, primary, j)
    ensures Price(cat, ranks, recipes[j], rich) <= Price(cat, ranks, recipes[k], poor)
  {
    var p, q := Tried(cat, ranks, recipes[k], poor), Tried(cat, ranks, recipes[k], rich);
    RicherStays(cat, ranks, recipes[k].parts, Pool(poor, []), Pool(rich, []));
    SatCostIsCost(cat, p.wanted);
    SatCostIsCost(cat, q.wanted);
    assert Before(cat, ranks, recipes, rich, primary, j, k);
  }

  /** What a recipe takes is held or bought: nothing held is lost, only whole items are bought,
      and, by a recipe of parts, spent and bought together are worth the price of the item. */
  lemma PurchaseConserves(cat: Catalogue, ranks: Ranks, item: ItemId, k: nat, held: seq<ItemId>)
    requires Acyclic(cat, ranks) && RecipesCostAlike(cat) && k < |RecipesOf(cat, item)|
    ensures var end := Tried(cat, ranks, RecipesOf(cat, item)[k], held);
            multiset(end.held) <= multiset(held) && Whole(cat, end.wanted)
    ensures var recipe := RecipesOf(cat, item)[k];
            var end := Tried(cat, ranks, recipe, held);
            !recipe.byCharges && BoughtByParts(cat, ranks, recipe.parts) ==>
              Cost(cat, end.wanted) + (Cost(cat, held) - Cost(cat, end.held)) == CostOf(cat, item)
  {
    var recipe := RecipesOf(cat, item)[k];
    BeyondConserves(cat, ranks, recipe.parts, Pool(held, []));
    var end := Tried(cat, ranks, recipe, held);
    assert end.wanted[0..] == end.wanted;
    if !recipe.byCharges && BoughtByParts(cat, ranks, recipe.parts) {
      BeyondPays(cat, ranks, recipe.parts, Pool(held, []));
      RecipeCosts(cat, item, k);
    }
  }

  lemma FirstIsSpent(parts: seq<ItemId>, held: seq<ItemId>)
    requires parts != [] && multiset(parts) <= multiset(held)
    ensures parts[0] in held && multiset(parts[1..]) <= multiset(Without(held, parts[0]))
    ensures multiset(Without(held, parts[0])) - multiset(parts[1..]) == multiset(held) - multiset(parts)
  {
    assert parts == [parts[0]] + parts[1..];
    assert parts[0] in multiset(held);
    WithoutIsOneLess(held, parts[0]);
    hide Without;
  }

  /** Whoever holds every part of a recipe buys nothing, and spends exactly those. */
  lemma {:induction false} HeldPartsAreSpent(cat: Catalogue, ranks: Ranks, parts: seq<ItemId>, pool: Pool)
    requires Acyclic(cat, ranks) && multiset(parts) <= multiset(pool.held)
    ensures var end := Beyond(cat, ranks, parts, pool);
            end.wanted == pool.wanted && multiset(end.held) == multiset(pool.held) - multiset(parts)
    decreases |parts|
  {
    if parts != [] {
      FirstIsSpent(parts, pool.held);
      var rest := Without(pool.held, parts[0]);
      assert Beyond(cat, ranks, parts, pool) == Beyond(cat, ranks, parts[1..], Pool(rest, pool.wanted));
      HeldPartsAreSpent(cat, ranks, parts[1..], Pool(rest, pool.wanted));
      hide Beyond, Without, Acyclic;
    }
  }

  /** An item's recipes: its components, if it has any, then its alternatives, then its charges, each
      set of charges under no attribute; the first of them is what a part of it is asked for by. */
  lemma RecipesInOrder(cat: Catalogue, id: ItemId, k: nat)
    requires id in cat
    ensures var (def, recipes) := (cat[id], RecipesOf(cat, id));
            var first := if |def.components| > 0 then 1 else 0;
            |recipes| == first + |def.alternatives| + |def.chargeRecipes| &&
            (|def.components| > 0 ==> recipes[0] == Recipe(def.components, false, def.mode)) &&
            (k < |def.alternatives| ==> recipes[first + k] == def.alternatives[k]) &&
            (k < |def.chargeRecipes| ==>
               recipes[first + |def.alternatives| + k] == Recipe(def.chargeRecipes[k], true, None)) &&
            FirstParts(cat, id) == if |recipes| > 0 then recipes[0].parts else []
  {
  }

  lemma RecipeCosts(cat: Catalogue, item: ItemId, k: nat)
    requires RecipesCostAlike(cat) && k < |RecipesOf(cat, item)| && !RecipesOf(cat, item)[k].byCharges
    ensures Cost(cat, RecipesOf(cat, item)[k].parts) == CostOf(cat, item)
  {
    var def := cat[item];
    var first := if def.components == [] then 0 else 1;
    if first <= k < first + |def.alternatives| {
      assert def.Recipes()[k] == def.alternatives[k - first];
      assert def.alternatives[k - first] in def.alternatives;
    }
  }

  /** Once everything asked for is bought, the item asks for nothing more to pay, and the recipe
      bought for leaves exactly what it would have left. */
  lemma BuyingCompletes(cat: Catalogue, ranks: Ranks, recipes: seq<Recipe>, primary: Option<Attribute>,
                        held: seq<ItemId>, k: nat, after: seq<ItemId>, j: nat)
    requires Acyclic(cat, ranks) && CostsArePrices(cat)
    requires Chosen(cat, ranks, recipes, held, primary, k) && Chosen(cat, ranks, recipes, after, primary, j)
    requires multiset(after) == multiset(held) + multiset(Tried(cat, ranks, recipes[k], held).wanted)
    ensures Price(cat, ranks, recipes[j], after) == 0
    ensures Tried(cat, ranks, recipes[k], after).wanted == []
    ensures multiset(Tried(cat, ranks, recipes[k], after).held) == multiset(Tried(cat, ranks, recipes[k], held).held)
  {
    var pool, stocked := Pool(held, []), Pool(after, []);
    var end := Tried(cat, ranks, recipes[k], held);
    assert end.wanted[0..] == end.wanted;
    BoughtCompletes(cat, ranks, recipes[k].parts, pool, stocked, multiset{});
    assert Before(cat, ranks, recipes, after, primary, j, k);
    SatCostIsCost(cat, Tried(cat, ranks, recipes[j], after).wanted);
    CostNonNegative(cat, Tried(cat, ranks, recipes[j], after).wanted);
  }

  // ---------- which stacks count ----------

  predicate CountsFor(stack: Stacking.Stack, buyer: u8) { stack.owner == buyer && !stack.forSale && !stack.locked }

  function PurchasePool(buyer: u8, held: seq<Stacking.Stack>): seq<ItemId> {
    if held == [] then []
    else
      var last := held[|held| - 1];
      PurchasePool(buyer, held[..|held| - 1]) + if CountsFor(last, buyer) then [last.counts.id] else []
  }

  lemma {:induction false} PoolJoins(buyer: u8, held: seq<Stacking.Stack>, more: seq<Stacking.Stack>)
    ensures PurchasePool(buyer, held + more) == PurchasePool(buyer, held) + PurchasePool(buyer, more)
  {
    if more == [] {
      assert held + more == held;
    } else {
      assert (held + more)[..|held + more| - 1] == held + more[..|more| - 1];
      PoolJoins(buyer, held, more[..|more| - 1]);
    }
  }

  /** Which of the stacks are of an item, the buyer's own, not for sale and not locked. */
  ghost function Counted(buyer: u8, held: seq<Stacking.Stack>, id: ItemId): set<nat> {
    set i | 0 <= i < |held| && held[i].counts.id == id && held[i].owner == buyer && !held[i].forSale && !held[i].locked
  }

  /** Whether one more stack is of those. */
  predicate IsCounted(buyer: u8, stack: Stacking.Stack, id: ItemId) {
    stack.counts.id == id && stack.owner == buyer && !stack.forSale && !stack.locked
  }

  lemma CountedSplits(buyer: u8, held: seq<Stacking.Stack>, last: Stacking.Stack, id: ItemId)
    ensures Counted(buyer, held + [last], id) ==
            Counted(buyer, held, id) + if IsCounted(buyer, last, id) then {|held|} else {}
  {
    var all := held + [last];
    assert all[|held|] == last && forall i :: 0 <= i < |held| ==> all[i] == held[i];
  }

  lemma OneMore(indices: set<nat>, n: nat)
    requires n !in indices
    ensures |indices + {n}| == |indices| + 1 && indices + {} == indices
  {
  }

  lemma CountedGrows(buyer: u8, held: seq<Stacking.Stack>, last: Stacking.Stack, id: ItemId)
    ensures |Counted(buyer, held + [last], id)| ==
            |Counted(buyer, held, id)| + if IsCounted(buyer, last, id) then 1 else 0
  {
    CountedSplits(buyer, held, last, id);
    assert |held| !in Counted(buyer, held, id);
    hide Counted, IsCounted;
    OneMore(Counted(buyer, held, id), |held|);
  }

  lemma PoolGrows(buyer: u8, held: seq<Stacking.Stack>, last: Stacking.Stack, id: ItemId)
    ensures multiset(PurchasePool(buyer, held + [last]))[id] ==
            multiset(PurchasePool(buyer, held))[id] + if IsCounted(buyer, last, id) then 1 else 0
  {
    assert (held + [last])[..|held|] == held;
  }

  /** The pool has an item once for each of those stacks. */
  lemma {:induction false} PoolCounts(buyer: u8, held: seq<Stacking.Stack>, id: ItemId)
    ensures multiset(PurchasePool(buyer, held))[id] == |Counted(buyer, held, id)|
  {
    if held == [] {
      assert Counted(buyer, held, id) == {};
    } else {
      var rest, last := held[..|held| - 1], held[|held| - 1];
      assert held == rest + [last];
      PoolCounts(buyer, rest, id);
      CountedGrows(buyer, rest, last, id);
      PoolGrows(buyer, rest, last, id);
      hide Counted, PurchasePool, IsCounted;
    }
  }

  /** Reaching further stacks, whosever they are and however marked, never makes a purchase dearer;
      and stacks of others, for sale or locked change nothing about it. */
  lemma ReachingMoreCostsNoMore(cat: Catalogue, ranks: Ranks, recipes: seq<Recipe>, primary: Option<Attribute>,
                                buyer: u8, held: seq<Stacking.Stack>, k: nat, more: seq<Stacking.Stack>, j: nat)
    requires Acyclic(cat, ranks) && CostsArePrices(cat)
    requires Chosen(cat, ranks, recipes, PurchasePool(buyer, held), primary, k)
    requires Chosen(cat, ranks, recipes, PurchasePool(buyer, held + more), primary, j)
    ensures Price(cat, ranks, recipes[j], PurchasePool(buyer, held + more)) <=
            Price(cat, ranks, recipes[k], PurchasePool(buyer, held))
    ensures (forall i :: 0 <= i < |more| ==> more[i].owner != buyer || more[i].forSale || more[i].locked) ==>
            PurchasePool(buyer, held + more) == PurchasePool(buyer, held)
  {
    hide Chosen, Price, Acyclic, CostsArePrices;
    PoolJoins(buyer, held, more);
    HoldingMoreCostsNoMore(cat, ranks, recipes, primary, PurchasePool(buyer, held), k,
                           PurchasePool(buyer, held + more), j);
    if forall i :: 0 <= i < |more| ==> more[i].owner != buyer || more[i].forSale || more[i].locked {
      NoneCount(buyer, more);
    }
  }

  lemma {:induction false} NoneCount(buyer: u8, held: seq<Stacking.Stack>)
    requires forall i :: 0 <= i < |held| ==> !CountsFor(held[i], buyer)
    ensures PurchasePool(buyer, held) == []
  {
    if held != [] {
      NoneCount(buyer, held[..|held| - 1]);
    }
  }
}
