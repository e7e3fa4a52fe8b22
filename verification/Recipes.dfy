/** The shop a server states, as match_static.rs validates it before a match: every item once,
    every part sold, nothing built from itself, and no recipe tree too large to lay out. */
module Recipes {
  import opened Items
  import opened Machine

  /** `MAX_RECIPE_TREE` of limits.rs */
  const MAX_RECIPE_TREE: nat := 64

  datatype ShopEntry = ShopEntry(id: ItemId, components: seq<ItemId>, alternatives: seq<seq<ItemId>>)

  type Shop = seq<ShopEntry>

  datatype Verdict = Passes | RepeatsItem | CyclicRecipe | UnsoldPart | TreeTooLarge

  function Flatten(lists: seq<seq<ItemId>>): seq<ItemId> {
    if lists == [] then [] else lists[0] + Flatten(lists[1..])
  }

  /** All parts of all recipes, the first recipe's before the others'. */
  function Parts(entry: ShopEntry): seq<ItemId> { entry.components + Flatten(entry.alternatives) }

  /** A part is one of the components or of some alternative. */
  lemma PartsOfAll(entry: ShopEntry, part: ItemId)
    ensures part in Parts(entry) <==>
            part in entry.components ||
            exists k :: 0 <= k < |entry.alternatives| && part in entry.alternatives[k]
  {
    FlattenHolds(entry.alternatives, part);
  }

  lemma {:induction false} FlattenHolds(lists: seq<seq<ItemId>>, part: ItemId)
    ensures part in Flatten(lists) <==> exists k :: 0 <= k < |lists| && part in lists[k]
  {
    if lists != [] {
      FlattenHolds(lists[1..], part);
      assert forall k :: 0 <= k < |lists| - 1 ==> lists[1..][k] == lists[k + 1];
      if k :| 0 <= k < |lists| && part in lists[k] {
        assert k > 0 ==> part in lists[1..][k - 1];
      }
    }
  }

  /** The first entry selling `id`; `|shop|` when nothing does. */
  function Find(shop: Shop, id: ItemId): (at: nat)
    ensures at <= |shop|
    ensures at < |shop| ==> shop[at].id == id
  {
    FindFrom(shop, id, 0)
  }

  function FindFrom(shop: Shop, id: ItemId, from: nat): (at: nat)
    requires from <= |shop|
    ensures from <= at <= |shop| && (at < |shop| ==> shop[at].id == id)
    decreases |shop| - from
  {
    if from == |shop| || shop[from].id == id then from else FindFrom(shop, id, from + 1)
  }

  lemma {:induction false} FindFirst(shop: Shop, id: ItemId, from: nat)
    requires from <= |shop|
    ensures forall i :: from <= i < FindFrom(shop, id, from) ==> shop[i].id != id
    decreases |shop| - from
  {
    if from < |shop| && shop[from].id != id {
      FindFirst(shop, id, from + 1);
    }
  }

  // ---------- what a sound shop is ----------

  ghost predicate UniqueIds(shop: Shop) {
    forall i, j :: 0 <= i < j < |shop| ==> shop[i].id != shop[j].id
  }

  ghost predicate Sold(shop: Shop, id: ItemId) { exists i :: 0 <= i < |shop| && shop[i].id == id }

  ghost predicate AllPartsSold(shop: Shop) {
    forall i, k :: 0 <= i < |shop| && 0 <= k < |Parts(shop[i])| ==> Sold(shop, Parts(shop[i])[k])
  }

  /** Some recipe of the one entry names the other as a part. */
  ghost predicate BuiltFrom(shop: Shop, i: nat, j: nat) {
    i < |shop| && j < |shop| && shop[j].id in Parts(shop[i])
  }

  ghost predicate Link(shop: Shop, c: seq<nat>, k: nat) {
    k + 1 < |c| && BuiltFrom(shop, c[k], c[k + 1])
  }

  ghost predicate Chain(shop: Shop, c: seq<nat>) {
    forall k: nat :: k + 1 < |c| ==> Link(shop, c, k)
  }

  ghost predicate Acyclic(shop: Shop) {
    forall c: seq<nat> :: |c| >= 2 && Chain(shop, c) ==> c[0] != c[|c| - 1]
  }

  /** An item laid out whole: the parts of its first recipe, theirs, and so on. */
  datatype Tree = Node(at: nat, parts: seq<Tree>)

  ghost function Size(t: Tree): nat { 1 + Sizes(t.parts) }

  ghost function Sizes(ts: seq<Tree>): nat {
    if ts == [] then 0 else Sizes(ts[..|ts| - 1]) + Size(ts[|ts| - 1])
  }

  ghost predicate LaysOut(shop: Shop, t: Tree) {
    t.at < |shop| && |t.parts| == |shop[t.at].components| &&
    forall k :: 0 <= k < |t.parts| ==>
      LaysOut(shop, t.parts[k]) && shop[t.parts[k].at].id == shop[t.at].components[k]
  }

  ghost predicate TreesFit(shop: Shop) {
    forall t :: LaysOut(shop, t) ==> Size(t) <= MAX_RECIPE_TREE
  }

  ghost predicate Sound(shop: Shop) {
    UniqueIds(shop) && AllPartsSold(shop) && Acyclic(shop) && TreesFit(shop)
  }

  // ---------- what the search keeps ----------

  const WHITE: nat := 0
  const GREY: nat := 1
  const BLACK: nat := 2

  /** The sizes of the first `n` parts of an entry's first recipe together. */
  ghost function Laid(shop: Shop, trees: seq<nat>, i: nat, n: nat): nat
    requires i < |shop| <= |trees| && n <= |shop[i].components|
  {
    if n == 0 then 0
    else
      Laid(shop, trees, i, n - 1) + var j := Find(shop, shop[i].components[n - 1]); if j < |shop| then trees[j] else 0
  }

  /** The finished entries, each with the time it was finished. */
  type Done = map<nat, nat>

  ghost predicate Finished(shop: Shop, colors: seq<nat>, trees: seq<nat>, done: Done) {
    |shop| <= |colors| && |shop| <= |trees| &&
    (forall i :: 0 <= i < |shop| ==> (colors[i] == BLACK <==> i in done)) &&
    (forall i :: i in done ==> i < |shop| && done[i] < |done|) &&
    (forall i {:trigger Settled(shop, done, i)} :: i in done ==> Settled(shop, done, i)) &&
    (forall i {:trigger Counted(shop, trees, i)} :: i in done ==> Counted(shop, trees, i))
  }

  /** All parts finished before the entry. */
  ghost predicate Settled(shop: Shop, done: Done, i: nat)
    requires i in done
  {
    i < |shop| &&
    forall p {:trigger p in Parts(shop[i])} :: p in Parts(shop[i]) ==>
      Find(shop, p) < |shop| && Find(shop, p) in done && done[Find(shop, p)] < done[i]
  }

  /** The tree of the entry is what its first recipe lays out. */
  ghost predicate Counted(shop: Shop, trees: seq<nat>, i: nat)
    requires |shop| <= |trees|
  {
    i < |shop| && trees[i] == 1 + Laid(shop, trees, i, |shop[i].components|) <= MAX_RECIPE_TREE
  }

  ghost function Whites(shop: Shop, colors: seq<nat>): set<nat>
    requires |shop| <= |colors|
  {
    set i | 0 <= i < |shop| && colors[i] == WHITE
  }

  /** The entries on the path are the grey ones, each built from the next. */
  ghost predicate OnPath(shop: Shop, colors: seq<nat>, path: seq<nat>) {
    |shop| <= |colors| && Chain(shop, path) &&
    (forall k :: 0 <= k < |path| ==> path[k] < |shop|) &&
    (forall i :: 0 <= i < |shop| ==> colors[i] <= BLACK && (colors[i] == GREY <==> i in path))
  }

  /** What each refusal has found. */
  ghost predicate Faulted(shop: Shop, v: Verdict) {
    match v
    case Passes => false
    case RepeatsItem => !UniqueIds(shop)
    case CyclicRecipe => !Acyclic(shop)
    case UnsoldPart => !AllPartsSold(shop)
    case TreeTooLarge => AllPartsSold(shop) && Acyclic(shop) ==> !TreesFit(shop)
  }

  lemma ChainSnoc(shop: Shop, c: seq<nat>, j: nat)
    requires Chain(shop, c) && (c != [] ==> BuiltFrom(shop, c[|c| - 1], j))
    ensures Chain(shop, c + [j])
  {
    forall k: nat | k + 1 < |c + [j]|
      ensures Link(shop, c + [j], k)
    {
      if k + 1 < |c| { assert Link(shop, c, k); }
    }
  }

  lemma FindUnique(shop: Shop, i: nat)
    requires UniqueIds(shop) && i < |shop|
    ensures Find(shop, shop[i].id) == i
  {
    FindFirst(shop, shop[i].id, 0);
  }

  /** Meeting a grey entry closes a cycle along the path. */
  lemma BackToPath(shop: Shop, path: seq<nat>, at: nat)
    requires Chain(shop, path) && at in path && BuiltFrom(shop, path[|path| - 1], at)
    ensures !Acyclic(shop)
  {
    var k :| 0 <= k < |path| && path[k] == at;
    var c := path[k..] + [at];
    forall m: nat | m + 1 < |c|
      ensures Link(shop, c, m)
    {
      if m < |path| - k - 1 {
        assert Link(shop, path, k + m);
      }
    }
    assert Chain(shop, c) && c[0] == c[|c| - 1];
  }

  /** What is laid out of finished parts stays as it was while other entries finish. */
  lemma {:induction false} LaidKept(shop: Shop, before: seq<nat>, after: seq<nat>, i: nat, n: nat, known: Done)
    requires i < |shop| <= |before| && |shop| <= |after| && n <= |shop[i].components|
    requires forall k :: 0 <= k < n ==> Find(shop, shop[i].components[k]) in known
    requires forall j :: j in known && j < |shop| ==> before[j] == after[j]
    ensures Laid(shop, before, i, n) == Laid(shop, after, i, n)
  {
    if n > 0 {
      LaidKept(shop, before, after, i, n - 1, known);
    }
  }

  lemma FirstAmongParts(entry: ShopEntry)
    ensures forall k :: 0 <= k < |entry.components| ==> entry.components[k] in Parts(entry)
  {
    forall k | 0 <= k < |entry.components|
      ensures entry.components[k] in Parts(entry)
    {
      assert Parts(entry)[k] == entry.components[k];
    }
  }

  /** Any layout of a finished entry has the size counted for it. */
  lemma {:induction false} FinishedSize(shop: Shop, colors: seq<nat>, trees: seq<nat>, done: Done, t: Tree)
    requires UniqueIds(shop) && Finished(shop, colors, trees, done)
    requires LaysOut(shop, t) && t.at in done
    ensures Size(t) == trees[t.at]
  {
    assert Settled(shop, done, t.at) && Counted(shop, trees, t.at);
    FirstAmongParts(shop[t.at]);
    forall k | 0 <= k < |t.parts|
      ensures t.parts[k].at in done && Size(t.parts[k]) == trees[t.parts[k].at]
    {
      PartIsFound(shop, t, k);
      FinishedSize(shop, colors, trees, done, t.parts[k]);
    }
    SizesAreLaid(shop, trees, t, |t.parts|);
    assert t.parts[..|t.parts|] == t.parts;
  }

  lemma PartIsFound(shop: Shop, t: Tree, k: nat)
    requires UniqueIds(shop) && LaysOut(shop, t) && k < |t.parts|
    ensures t.parts[k].at == Find(shop, shop[t.at].components[k])
  {
    assert LaysOut(shop, t.parts[k]);
    FindUnique(shop, t.parts[k].at);
  }

  lemma {:induction false} SizesAreLaid(shop: Shop, trees: seq<nat>, t: Tree, n: nat)
    requires UniqueIds(shop) && LaysOut(shop, t) && |shop| <= |trees| && n <= |t.parts|
    requires forall k :: 0 <= k < n ==> t.parts[k].at < |trees| && Size(t.parts[k]) == trees[t.parts[k].at]
    ensures Sizes(t.parts[..n]) == Laid(shop, trees, t.at, n)
  {
    if n > 0 {
      SizesAreLaid(shop, trees, t, n - 1);
      PartIsFound(shop, t, n - 1);
      assert t.parts[..n][..n - 1] == t.parts[..n - 1];
    }
  }

  lemma {:induction false} SizesGrow(ts: seq<Tree>, n: nat)
    requires n <= |ts|
    ensures Sizes(ts[..n]) <= Sizes(ts)
  {
    if n == |ts| {
      assert ts[..n] == ts;
    } else {
      SizesGrow(ts[..|ts| - 1], n);
      assert ts[..|ts| - 1][..n] == ts[..n];
    }
  }

  /** Distinct entries are no more than there are. */
  lemma {:induction false} Pigeonhole(c: seq<nat>, n: nat)
    requires forall k :: 0 <= k < |c| ==> c[k] < n
    requires forall j, k :: 0 <= j < k < |c| ==> c[j] != c[k]
    ensures |c| <= n
  {
    if c != [] {
      assert c[0] < n;
      if k :| 0 <= k < |c| && c[k] == n - 1 {
        var d := c[..k] + c[k + 1..];
        assert forall m :: 0 <= m < |d| ==> d[m] == c[if m < k then m else m + 1];
        Pigeonhole(d, n - 1);
      } else {
        Pigeonhole(c, n - 1);
      }
    }
  }

  lemma ChainIsShort(shop: Shop, c: seq<nat>)
    requires Acyclic(shop) && Chain(shop, c) && forall k :: 0 <= k < |c| ==> c[k] < |shop|
    ensures |c| <= |shop|
  {
    forall j, k | 0 <= j < k < |c|
      ensures c[j] != c[k]
    {
      var d := c[j..k + 1];
      forall m: nat | m + 1 < |d|
        ensures Link(shop, d, m)
      {
        assert Link(shop, c, j + m);
      }
      assert Chain(shop, d);
    }
    Pigeonhole(c, |shop|);
  }

  /** In a shop of sold parts and no cycle every entry can be laid out. */
  lemma {:induction false} LayoutExists(shop: Shop, c: seq<nat>) returns (t: Tree)
    requires UniqueIds(shop) && AllPartsSold(shop) && Acyclic(shop)
    requires c != [] && Chain(shop, c) && forall k :: 0 <= k < |c| ==> c[k] < |shop|
    ensures LaysOut(shop, t) && t.at == c[|c| - 1]
    decreases |shop| - |c|, 2, 0
  {
    ChainIsShort(shop, c);
    var i := c[|c| - 1];
    var ts := PartsExist(shop, c, |shop[i].components|);
    t := Node(i, ts);
  }

  lemma {:induction false} PartsExist(shop: Shop, c: seq<nat>, n: nat) returns (ts: seq<Tree>)
    requires UniqueIds(shop) && AllPartsSold(shop) && Acyclic(shop)
    requires c != [] && Chain(shop, c) && forall k :: 0 <= k < |c| ==> c[k] < |shop|
    requires |c| <= |shop| && n <= |shop[c[|c| - 1]].components|
    ensures |ts| == n
    ensures forall k :: 0 <= k < n ==> LaysOut(shop, ts[k]) && shop[ts[k].at].id == shop[c[|c| - 1]].components[k]
    decreases |shop| - |c|, 1, n
  {
    hide UniqueIds, AllPartsSold, Acyclic, Chain, LaysOut;
    ts := [];
    if n > 0 {
      ts := PartsExist(shop, c, n - 1);
      var t := PartExists(shop, c, n - 1);
      ts := ts + [t];
    }
  }

  lemma {:induction false} PartExists(shop: Shop, c: seq<nat>, k: nat) returns (t: Tree)
    requires UniqueIds(shop) && AllPartsSold(shop) && Acyclic(shop)
    requires c != [] && Chain(shop, c) && forall k :: 0 <= k < |c| ==> c[k] < |shop|
    requires |c| <= |shop| && k < |shop[c[|c| - 1]].components|
    ensures LaysOut(shop, t) && shop[t.at].id == shop[c[|c| - 1]].components[k]
    decreases |shop| - |c|, 0, 0
  {
    var i := c[|c| - 1];
    var part := shop[i].components[k];
    assert Parts(shop[i])[k] == part;
    SoldIsFound(shop, part);
    var j := Find(shop, part);
    assert BuiltFrom(shop, i, j);
    ChainSnoc(shop, c, j);
    ChainIsShort(shop, c + [j]);
    t := LayoutExists(shop, c + [j]);
  }

  lemma SoldIsFound(shop: Shop, id: ItemId)
    requires Sold(shop, id)
    ensures Find(shop, id) < |shop|
  {
    FindFirst(shop, id, 0);
  }

  /** A tree already past the limit while only part of its recipe is laid out. */
  lemma TooLarge(shop: Shop, colors: seq<nat>, trees: seq<nat>, done: Done, i: nat, n: nat)
    requires UniqueIds(shop) && Finished(shop, colors, trees, done)
    requires i < |shop| && n <= |shop[i].components|
    requires forall k :: 0 <= k < n ==> Find(shop, shop[i].components[k]) in done
    requires 1 + Laid(shop, trees, i, n) > MAX_RECIPE_TREE
    ensures Faulted(shop, TreeTooLarge)
  {
    if AllPartsSold(shop) && Acyclic(shop) {
      var t := LayoutExists(shop, [i]);
      forall k | 0 <= k < n
        ensures t.parts[k].at < |trees| && Size(t.parts[k]) == trees[t.parts[k].at]
      {
        PartIsFound(shop, t, k);
        FinishedSize(shop, colors, trees, done, t.parts[k]);
      }
      SizesAreLaid(shop, trees, t, n);
      SizesGrow(t.parts, n);
    }
  }

  /** Along a chain of finished entries the times only fall. */
  lemma {:induction false} ChainFalls(shop: Shop, colors: seq<nat>, trees: seq<nat>, done: Done, c: seq<nat>, k: nat)
    requires Finished(shop, colors, trees, done) && UniqueIds(shop)
    requires Chain(shop, c) && 1 <= k < |c| && c[0] in done
    ensures c[k] in done && done[c[k]] < done[c[0]]
  {
    if k > 1 {
      ChainFalls(shop, colors, trees, done, c, k - 1);
    }
    assert Link(shop, c, k - 1);
    PartIsEarlier(shop, colors, trees, done, c[k - 1], c[k]);
  }

  lemma PartIsEarlier(shop: Shop, colors: seq<nat>, trees: seq<nat>, done: Done, i: nat, j: nat)
    requires Finished(shop, colors, trees, done) && UniqueIds(shop)
    requires BuiltFrom(shop, i, j) && i in done
    ensures j in done && done[j] < done[i]
  {
    assert Settled(shop, done, i);
    FindUnique(shop, j);
  }

  ghost predicate UpTo(done: Done, n: nat) { forall i: nat :: i < n ==> i in done }

  /** Once every entry is finished, the shop is sound. */
  lemma AllFinished(shop: Shop, colors: seq<nat>, trees: seq<nat>, done: Done)
    requires UniqueIds(shop) && Finished(shop, colors, trees, done) && UpTo(done, |shop|)
    ensures Sound(shop)
  {
    forall i, k | 0 <= i < |shop| && 0 <= k < |Parts(shop[i])|
      ensures Sold(shop, Parts(shop[i])[k])
    {
      FinishedSold(shop, colors, trees, done, i, k);
    }
    forall c: seq<nat> | |c| >= 2 && Chain(shop, c)
      ensures c[0] != c[|c| - 1]
    {
      assert Link(shop, c, 0);
      ChainFalls(shop, colors, trees, done, c, |c| - 1);
    }
    forall t | LaysOut(shop, t)
      ensures Size(t) <= MAX_RECIPE_TREE
    {
      FinishedSize(shop, colors, trees, done, t);
      assert Counted(shop, trees, t.at);
    }
  }

  lemma FinishedSold(shop: Shop, colors: seq<nat>, trees: seq<nat>, done: Done, i: nat, k: nat)
    requires Finished(shop, colors, trees, done) && i in done && k < |Parts(shop[i])|
    ensures Sold(shop, Parts(shop[i])[k])
  {
    assert Settled(shop, done, i);
    assert Parts(shop[i])[k] in Parts(shop[i]);
    var j := Find(shop, Parts(shop[i])[k]);
    assert shop[j].id == Parts(shop[i])[k];
  }

  /** Where the search stands: the entries on its path, the finished ones, their trees. */
  datatype Search = Search(colors: seq<nat>, trees: seq<nat>, path: seq<nat>, done: Done)

  ghost predicate Searching(shop: Shop, s: Search) {
    match s
    case Search(colors, trees, path, done) =>
      UniqueIds(shop) && OnPath(shop, colors, path) && Finished(shop, colors, trees, done)
  }

  /** What was finished stays finished, with its tree, and nothing turns white again. */
  ghost predicate Grown(shop: Shop, s: Search, s': Search) {
    match s
    case Search(colors, trees, path, done) =>
      |shop| <= |colors| && |shop| <= |s'.colors| && Whites(shop, s'.colors) <= Whites(shop, colors) &&
      forall i :: i in done ==> i in s'.done && i < |trees| && i < |s'.trees| && s'.trees[i] == trees[i]
  }

  lemma GrownOn(shop: Shop, r: Search, s: Search, t: Search)
    requires Grown(shop, r, s) && Grown(shop, s, t)
    ensures Grown(shop, r, t)
  {
  }

  lemma Start(shop: Shop, colors: seq<nat>, trees: seq<nat>)
    requires UniqueIds(shop) && |shop| <= |colors| && |shop| <= |trees|
    requires forall i :: 0 <= i < |colors| ==> colors[i] == WHITE
    ensures Searching(shop, Search(colors, trees, [], map[]))
  {
  }

  /** A white entry goes onto the path. */
  lemma Enter(shop: Shop, s: Search, at: nat, s': Search)
    requires Searching(shop, s) && at < |shop| <= |s.colors| && s.colors[at] != GREY && s.colors[at] != BLACK
    requires s.path != [] ==> BuiltFrom(shop, s.path[|s.path| - 1], at)
    requires s' == s.(colors := s.colors[at := GREY], path := s.path + [at])
    ensures Walking(shop, s, s', at, 0, 1)
  {
    ChainSnoc(shop, s.path, at);
    assert at in Whites(shop, s.colors) && at !in Whites(shop, s'.colors);
    assert forall i :: i in Whites(shop, s'.colors) ==> i in Whites(shop, s.colors);
  }

  /** The entry on top of the path has its first `n` parts finished, and those of its first
      recipe laid out. */
  ghost predicate Walked(shop: Shop, s: Search, at: nat, n: nat, tree: nat) {
    match s
    case Search(colors, trees, path, done) =>
      at < |shop| <= |trees| && n <= |Parts(shop[at])| && at !in done &&
      path != [] && path[|path| - 1] == at && at !in path[..|path| - 1] &&
      (forall k :: 0 <= k < n ==> Find(shop, Parts(shop[at])[k]) < |shop| && Find(shop, Parts(shop[at])[k]) in done) &&
      tree == 1 + Laid(shop, trees, at, Min(n, |shop[at].components|)) <= MAX_RECIPE_TREE
  }

  /** Other entries finishing below the path leave the walk where it is. */
  lemma StillWalked(shop: Shop, s: Search, s': Search, at: nat, n: nat, tree: nat)
    requires Walked(shop, s, at, n, tree)
    requires Searching(shop, s') && Grown(shop, s, s') && s'.path == s.path
    ensures Walked(shop, s', at, n, tree)
  {
    var m := Min(n, |shop[at].components|);
    assert forall k :: 0 <= k < m ==> Parts(shop[at])[k] == shop[at].components[k];
    LaidKept(shop, s.trees, s'.trees, at, m, s.done);
    assert at in s'.path && s'.colors[at] == GREY;
  }

  lemma WalkOn(shop: Shop, s: Search, at: nat, n: nat, tree: nat, next: nat, tree': nat)
    requires Searching(shop, s) && Walked(shop, s, at, n, tree) && n < |Parts(shop[at])|
    requires next == Find(shop, Parts(shop[at])[n]) < |shop| && next in s.done
    requires tree' == if n < |shop[at].components| then tree + s.trees[next] else tree
    ensures if tree' > MAX_RECIPE_TREE then Faulted(shop, TreeTooLarge) else Walked(shop, s, at, n + 1, tree')
  {
    if n < |shop[at].components| {
      assert Parts(shop[at])[n] == shop[at].components[n];
      if tree' > MAX_RECIPE_TREE {
        WalkedTooFar(shop, s, at, n, tree);
      }
    }
  }

  lemma WalkedTooFar(shop: Shop, s: Search, at: nat, n: nat, tree: nat)
    requires at < |shop| && Searching(shop, s) && Walked(shop, s, at, n, tree) && n < |shop[at].components|
    requires Find(shop, shop[at].components[n]) < |shop| && Find(shop, shop[at].components[n]) in s.done
    requires 1 + Laid(shop, s.trees, at, n + 1) > MAX_RECIPE_TREE
    ensures Faulted(shop, TreeTooLarge)
  {
    forall k | 0 <= k < n + 1
      ensures Find(shop, shop[at].components[k]) in s.done
    {
      assert Parts(shop[at])[k] == shop[at].components[k];
    }
    TooLarge(shop, s.colors, s.trees, s.done, at, n + 1);
  }

  /** A search below an entry it started from, walking the parts of the one on top. */
  ghost predicate Walking(shop: Shop, start: Search, s: Search, at: nat, n: nat, tree: nat) {
    match s
    case Search(colors, trees, path, done) =>
      Searching(shop, s) && Grown(shop, start, s) && Walked(shop, s, at, n, tree) && path == start.path + [at] &&
      |shop| <= |colors| && |shop| <= |start.colors| && Whites(shop, colors) < Whites(shop, start.colors)
  }

  /** What the walk adds to the tree for its next part. */
  function Added(shop: Shop, trees: seq<nat>, at: nat, n: nat): nat
    requires at < |shop| <= |trees|
  {
    if n < |shop[at].components| && Find(shop, shop[at].components[n]) < |shop|
      then trees[Find(shop, shop[at].components[n])] else 0
  }

  /** A step of the walk. A tree past the limit is a fault even before the rest is walked. */
  lemma StepTaken(shop: Shop, start: Search, s: Search, at: nat, n: nat, tree: nat, s': Search)
    requires Walking(shop, start, s, at, n, tree) && n < |Parts(shop[at])|
    requires Searching(shop, s') && Grown(shop, s, s') && s'.path == s.path
    requires Find(shop, Parts(shop[at])[n]) in s'.done
    ensures var tree' := tree + Added(shop, s'.trees, at, n);
            if tree' > MAX_RECIPE_TREE then Faulted(shop, TreeTooLarge) else Walking(shop, start, s', at, n + 1, tree')
  {
    StillWalked(shop, s, s', at, n, tree);
    GrownOn(shop, start, s, s');
    if n < |shop[at].components| { assert Parts(shop[at])[n] == shop[at].components[n]; }
    WalkOn(shop, s', at, n, tree, Find(shop, Parts(shop[at])[n]), tree + Added(shop, s'.trees, at, n));
  }

  /** A grey entry with all its parts finished leaves the path. */
  lemma Leave(shop: Shop, start: Search, s: Search, at: nat, tree: nat, s': Search)
    requires at < |shop| && Walking(shop, start, s, at, |Parts(shop[at])|, tree)
    requires s' == Search(s.colors[at := BLACK], s.trees[at := tree], start.path, s.done[at := |s.done|])
    ensures Searching(shop, s') && Grown(shop, start, s') && at in s'.done
  {
    assert |shop| <= |s.colors|;
    hide OnPath;
    assert s.path[..|s.path| - 1] == start.path;
    assert s.path == start.path + [at];
    LeavePath(shop, s.colors, start.path, at);
    FinishOne(shop, s.colors, s.trees, s.done, at, tree);
    hide Finished;
    FinishGrows(shop, s, s', at, tree);
    GrownOn(shop, start, s, s');
    hide Grown;
  }

  lemma FinishGrows(shop: Shop, s: Search, s': Search, at: nat, tree: nat)
    requires at < |shop| <= |s.colors| && |shop| <= |s.trees| && at !in s.done && forall i :: i in s.done ==> i < |shop|
    requires s'.colors == s.colors[at := BLACK] && s'.trees == s.trees[at := tree] && s'.done == s.done[at := |s.done|]
    ensures Grown(shop, s, s')
  {
  }

  lemma FinishOne(shop: Shop, colors: seq<nat>, trees: seq<nat>, done: Done, at: nat, tree: nat)
    requires Finished(shop, colors, trees, done) && at < |shop| && at !in done
    requires forall k ::
             0 <= k < |Parts(shop[at])| ==>
             Find(shop, Parts(shop[at])[k]) < |shop| && Find(shop, Parts(shop[at])[k]) in done
    requires tree == 1 + Laid(shop, trees, at, |shop[at].components|) <= MAX_RECIPE_TREE
    ensures Finished(shop, colors[at := BLACK], trees[at := tree], done[at := |done|])
  {
    var trees', done' := trees[at := tree], done[at := |done|];
    assert |done'| == |done| + 1;
    forall i | i in done'
      ensures Settled(shop, done', i) && Counted(shop, trees', i)
    {
      if i != at {
        assert Settled(shop, done, i) && Counted(shop, trees, i);
      }
      FirstAmongParts(shop[i]);
      LaidKept(shop, trees, trees', i, |shop[i].components|, done);
    }
  }

  lemma LeavePath(shop: Shop, colors: seq<nat>, path: seq<nat>, at: nat)
    requires OnPath(shop, colors, path + [at]) && at < |shop| && at !in path
    ensures OnPath(shop, colors[at := BLACK], path)
  {
    forall k: nat | k + 1 < |path|
      ensures Link(shop, path, k)
    {
      assert Link(shop, path + [at], k);
    }
    assert forall k :: 0 <= k < |path| ==> path[k] == (path + [at])[k];
  }

  lemma Unsold(shop: Shop, at: nat, k: nat)
    requires at < |shop| && k < |Parts(shop[at])| && Find(shop, Parts(shop[at])[k]) == |shop|
    ensures Faulted(shop, UnsoldPart)
  {
    FindFirst(shop, Parts(shop[at])[k], 0);
    assert !Sold(shop, Parts(shop[at])[k]);
  }

  lemma GreyIsCycle(shop: Shop, s: Search, at: nat)
    requires Searching(shop, s) && at < |shop| && s.colors[at] == GREY
    requires s.path != [] ==> BuiltFrom(shop, s.path[|s.path| - 1], at)
    ensures Faulted(shop, CyclicRecipe)
  {
    BackToPath(shop, s.path, at);
  }

  lemma BlackIsDone(shop: Shop, s: Search, at: nat)
    requires Searching(shop, s) && at < |shop| && s.colors[at] == BLACK
    ensures at in s.done && Grown(shop, s, s)
  {
  }

  /** What the search below the next part may count on. */
  lemma Below(shop: Shop, start: Search, s: Search, at: nat, n: nat, tree: nat, next: nat)
    requires at < |shop| && Walking(shop, start, s, at, n, tree) && n < |Parts(shop[at])|
    requires next == Find(shop, Parts(shop[at])[n]) < |shop|
    ensures Searching(shop, s) && Whites(shop, s.colors) < Whites(shop, start.colors)
    ensures s.path != [] && BuiltFrom(shop, s.path[|s.path| - 1], next)
    ensures tree <= MAX_RECIPE_TREE
  {
  }

  /** One item and, before it is done, everything it is built from. */
  method VisitRecipes(shop: Shop, at: nat, colors: array<nat>, trees: array<nat>, ghost path: seq<nat>,
      ghost done: Done)
    returns (v: Verdict, ghost done': Done)
    requires colors != trees && at < |shop| <= colors.Length && |shop| <= trees.Length
    requires Searching(shop, Search(colors[..], trees[..], path, done))
    requires path != [] ==> BuiltFrom(shop, path[|path| - 1], at)
    modifies colors, trees
    ensures v.Passes? ==> at in done' && Searching(shop, Search(colors[..], trees[..], path, done'))
    ensures v.Passes? ==>
            Grown(shop, old(Search(colors[..], trees[..], path, done)), Search(colors[..], trees[..], path, done'))
    ensures !v.Passes? ==> Faulted(shop, v)
    decreases Whites(shop, colors[..])
  {
    hide Searching, Walking, Grown, Faulted;
    ghost var start := Search(colors[..], trees[..], path, done);
    if colors[at] == GREY {
      GreyIsCycle(shop, start, at);
      return CyclicRecipe, done;
    }
    if colors[at] == BLACK {
      BlackIsDone(shop, start, at);
      return Passes, done;
    }
    ghost var s := Search(start.colors[at := GREY], start.trees, path + [at], done);
    Enter(shop, start, at, s);
    colors[at] := GREY;
    var parts := Parts(shop[at]);
    var tree: nat := 1;
    for index := 0 to |parts|
      invariant s == Search(colors[..], trees[..], path + [at], s.done)
      invariant Walking(shop, start, s, at, index, tree)
    {
      var next := Find(shop, parts[index]);
      if next == |shop| {
        Unsold(shop, at, index);
        return UnsoldPart, done;
      }
      Below(shop, start, s, at, index, tree, next);
      v, done' := VisitRecipes(shop, next, colors, trees, s.path, s.done);
      if !v.Passes? {
        return v, done;
      }
      ghost var before := s;
      s := Search(colors[..], trees[..], path + [at], done');
      StepTaken(shop, start, before, at, index, tree, s);
      if index < |shop[at].components| {
        assert parts[index] == shop[at].components[index];
        tree := tree + trees[next];
      }
      if tree > MAX_RECIPE_TREE {
        return TreeTooLarge, done;
      }
    }
    done' := s.done[at := |s.done|];
    Leave(shop, start, s, at, tree, Search(s.colors[at := BLACK], s.trees[at := tree], path, done'));
    trees[at] := tree;
    colors[at] := BLACK;
    assert colors[..] == s.colors[at := BLACK] && trees[..] == s.trees[at := tree];
    v := Passes;
  }

  lemma UpToGrows(shop: Shop, s: Search, s': Search, n: nat)
    requires UpTo(s.done, n) && Grown(shop, s, s') && n in s'.done
    ensures UpTo(s'.done, n + 1)
  {
  }

  /** `MAX_SHOP_ITEMS` is the capacity: a longer shop was refused before. */
  method ValidateRecipes(shop: Shop, capacity: nat) returns (v: Verdict)
    requires |shop| <= capacity
    ensures v.Passes? <==> Sound(shop)
    ensures !v.Passes? ==> Faulted(shop, v)
  {
    if exists at :: 1 <= at < |shop| && exists other :: 0 <= other < at && shop[other].id == shop[at].id {
      return RepeatsItem;
    }
    var colors := new nat[capacity](_ => WHITE);
    var trees := new nat[capacity](_ => 0);
    ghost var s := Search(colors[..], trees[..], [], map[]);
    Start(shop, s.colors, s.trees);
    for root := 0 to |shop|
      invariant s.colors == colors[..] && s.trees == trees[..] && s.path == []
      invariant Searching(shop, s) && UpTo(s.done, root)
    {
      ghost var before, done := s, s.done;
      v, done := VisitRecipes(shop, root, colors, trees, [], s.done);
      if !v.Passes? {
        return;
      }
      s := Search(colors[..], trees[..], [], done);
      UpToGrows(shop, before, s, root);
    }
    AllFinished(shop, s.colors, s.trees, s.done);
    return Passes;
  }
}
