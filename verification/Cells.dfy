/** cells.rs: the map's terrain cells, and one bit for each. */
module Cells {
  import opened Machine

  const GRID_CELLS: nat := 288
  const GRID_CELL_SIZE: nat := 64
  const CELLS: nat := GRID_CELLS * GRID_CELLS

  type Cell = (nat, nat)

  predicate OnGrid(cell: Cell) { cell.0 < GRID_CELLS && cell.1 < GRID_CELLS }

  /** Where a cell comes in row-major order, and the cell that comes there. */
  function IndexOf(cell: Cell): nat { cell.1 * GRID_CELLS + cell.0 }

  function CellAt(index: nat): Cell { (index % GRID_CELLS, index / GRID_CELLS) }

  lemma IndexInverts(cell: Cell)
    requires OnGrid(cell)
    ensures IndexOf(cell) < CELLS && CellAt(IndexOf(cell)) == cell
  {
  }

  lemma AtInverts(index: nat)
    requires index < CELLS
    ensures OnGrid(CellAt(index)) && IndexOf(CellAt(index)) == index
  {
  }

  function CellOf(pos: Vec2): (c: Option<Cell>)
    ensures c.Some? ==> OnGrid(c.value)
  {
    if pos.x < 0 || pos.y < 0 then None
    else
      var cx, cy := ToInt(pos.x) / GRID_CELL_SIZE, ToInt(pos.y) / GRID_CELL_SIZE;
      if cx >= GRID_CELLS || cy >= GRID_CELLS then None else Some((cx, cy))
  }

  function CellCenter(cell: Cell): Vec2
    requires OnGrid(cell)
  {
    Vec2((cell.0 * GRID_CELL_SIZE + GRID_CELL_SIZE / 2) * ONE, (cell.1 * GRID_CELL_SIZE + GRID_CELL_SIZE / 2) * ONE)
  }

  /** The largest coordinate a snapshot's units may have on a map of so many cells. */
  function MapMaximumRaw(cells: nat): i32 { Max(Min(cells * GRID_CELL_SIZE * ONE - 1, I32_MAX), 0) }

  /** The positions a snapshot is checked for are exactly those some cell of the grid holds. */
  lemma OnMapHasCell(pos: Vec2)
    ensures CellOf(pos).Some? <==>
            0 <= pos.x <= MapMaximumRaw(GRID_CELLS) && 0 <= pos.y <= MapMaximumRaw(GRID_CELLS)
  {
  }

  lemma CenterInCell(cell: Cell)
    requires OnGrid(cell)
    ensures CellOf(CellCenter(cell)) == Some(cell)
  {
  }

  /** A cell holds exactly the points of its square, its far sides left out, and its centre is the
      middle of that square. */
  lemma CellHolds(pos: Vec2, cell: Cell)
    requires OnGrid(cell)
    ensures CellOf(pos) == Some(cell) <==>
            cell.0 * 0x40_0000 <= pos.x < (cell.0 + 1) * 0x40_0000 &&
            cell.1 * 0x40_0000 <= pos.y < (cell.1 + 1) * 0x40_0000
    ensures 2 * CellCenter(cell).x == (2 * cell.0 + 1) * 0x40_0000
    ensures 2 * CellCenter(cell).y == (2 * cell.1 + 1) * 0x40_0000
  {
    assert 0x40_0000 == GRID_CELL_SIZE * ONE;
    if pos.x >= 0 && pos.y >= 0 {
      Rounded(pos.x, cell.0);
      Rounded(pos.y, cell.1);
    }
  }

  lemma Rounded(p: i32, c: nat)
    requires p >= 0
    ensures ToInt(p) / GRID_CELL_SIZE == c <==> c * 0x40_0000 <= p < (c + 1) * 0x40_0000
  {
  }

  // ---------- bits ----------

  function Doubled(word: bv64): bv64 { word << 1 }

  /** A word shifted left by so many places. */
  function Shifted(word: bv64, times: nat): bv64 { if times == 0 then word else Doubled(Shifted(word, times - 1)) }

  function Bit(k: nat): bv64 { Shifted(1, k) }

  lemma ShiftApart(a: bv64, b: bv64)
    ensures 1 & (b << 1) == 0
    ensures a & b == 0 ==> (a << 1) & (b << 1) == 0
  {
  }

  lemma {:induction false} BitsApart(j: nat, k: nat)
    requires j < k
    ensures Bit(j) & Bit(k) == 0
  {
    if j == 0 {
      ShiftApart(1, Bit(k - 1));
    } else {
      BitsApart(j - 1, k - 1);
      ShiftApart(Bit(j - 1), Bit(k - 1));
    }
  }

  lemma {:induction false} ZeroStays(k: nat, times: nat)
    requires Bit(k) == 0
    ensures Bit(k + times) == 0
  {
    if times > 0 {
      ZeroStays(k, times - 1);
    }
  }

  lemma FourDoubled(word: bv64)
    ensures Doubled(Doubled(Doubled(Doubled(word)))) == word << 4
    ensures (word << 4) << 4 == word << 8
  {
  }

  predicate EightUp(low: bv64, high: bv64) { high == low << 8 }

  lemma EightShifts(word: bv64)
    ensures EightUp(word, Shifted(word, 8))
  {
    hide Doubled;
    FourDoubled(word);
    FourDoubled(word << 4);
    assert Shifted(word, 1) == Doubled(word);
    assert Shifted(word, 2) == Doubled(Doubled(word));
    assert Shifted(word, 4) == Doubled(Doubled(Shifted(word, 2)));
    assert Shifted(word, 6) == Doubled(Doubled(Shifted(word, 4)));
    assert Shifted(word, 8) == Doubled(Doubled(Shifted(word, 6)));
  }

  lemma {:induction false} ShiftsJoin(word: bv64, first: nat, then_: nat)
    ensures Shifted(word, first + then_) == Shifted(Shifted(word, first), then_)
  {
    if then_ > 0 {
      ShiftsJoin(word, first, then_ - 1);
    }
  }

  lemma EightOn(k: nat)
    ensures EightUp(Bit(k), Bit(k + 8))
  {
    hide EightUp, Shifted;
    ShiftsJoin(1, k, 8);
    EightShifts(Bit(k));
  }

  lemma HighestBit()
    ensures Bit(63) == 0x8000_0000_0000_0000
  {
    assert Bit(2) == 4 && Bit(4) == 16 && Bit(6) == 64;
    assert Bit(7) == 0x80;
    EightOn(7);
    EightOn(15);
    EightOn(23);
    EightOn(31);
    EightOn(39);
    EightOn(47);
    EightOn(55);
  }

  lemma BitIsSet(k: nat)
    requires k < 64
    ensures Bit(k) != 0
  {
    if Bit(k) == 0 {
      ZeroStays(k, 63 - k);
      HighestBit();
    }
  }

  predicate Meets(word: bv64, mask: bv64) { word & mask != 0 }

  function Without(word: bv64, mask: bv64): bv64 { word & !mask }

  lemma WithoutOne(word: bv64, a: bv64, b: bv64)
    ensures !Meets(Without(word, a), a)
    ensures a & b == 0 || b & a == 0 ==> Meets(Without(word, a), b) == Meets(word, b)
    ensures a != 0 ==> Meets(0xffff_ffff_ffff_ffff, a)
  {
  }

  predicate IsSet(word: bv64, k: nat) { Meets(word, Bit(k)) }

  function Cleared(word: bv64, k: nat): bv64 { Without(word, Bit(k)) }

  /** Clearing one bit of a word clears that one alone. */
  lemma ClearedBit(word: bv64, j: nat, k: nat)
    ensures IsSet(Cleared(word, j), k) == (IsSet(word, k) && j != k)
  {
    hide Meets, Without, Bit;
    WithoutOne(word, Bit(j), Bit(k));
    if j < k {
      BitsApart(j, k);
    } else if k < j {
      BitsApart(k, j);
    }
  }

  class CellGrid {
    var bits: array<bv64>

    ghost predicate Valid() reads this { bits.Length == CELLS / 64 }

    constructor Open()
      ensures Valid() && fresh(bits)
      ensures forall cell: Cell :: OnGrid(cell) ==> CellOpen(cell)
    {
      bits := new bv64[CELLS / 64](_ => 0xffff_ffff_ffff_ffff);
      new;
      forall cell: Cell | OnGrid(cell)
        ensures CellOpen(cell)
      {
        IndexInverts(cell);
        BitIsSet(IndexOf(cell) % 64);
        WithoutOne(0, Bit(IndexOf(cell) % 64), 0);
      }
    }

    predicate CellOpen(cell: Cell)
      requires Valid() && OnGrid(cell)
      reads this, bits
    {
      var index := IndexOf(cell);
      IsSet(bits[index / 64], index % 64)
    }

    method CloseCell(cell: Cell)
      requires Valid() && OnGrid(cell)
      modifies bits
      ensures forall other: Cell :: OnGrid(other) ==> CellOpen(other) == (old(CellOpen(other)) && other != cell)
    {
      hide Cleared, IsSet;
      var index := IndexOf(cell);
      bits[index / 64] := Cleared(bits[index / 64], index % 64);
      forall other: Cell | OnGrid(other)
        ensures CellOpen(other) == (old(CellOpen(other)) && other != cell)
      {
        IndexInverts(cell);
        IndexInverts(other);
        ClearedBit(old(bits[index / 64]), index % 64, IndexOf(other) % 64);
      }
    }
  }

  /** The walls a sight rule is laid over: every cell stands open but those told opaque. */
  method Walls(opaqueCells: seq<Cell>) returns (walls: CellGrid)
    requires forall i :: 0 <= i < |opaqueCells| ==> OnGrid(opaqueCells[i])
    ensures fresh(walls) && fresh(walls.bits) && walls.Valid()
    ensures forall cell: Cell :: OnGrid(cell) ==> (walls.CellOpen(cell) <==> cell !in opaqueCells)
  {
    walls := new CellGrid.Open();
    for i := 0 to |opaqueCells|
      invariant fresh(walls) && fresh(walls.bits) && walls.Valid()
      invariant forall cell: Cell :: OnGrid(cell) ==> (walls.CellOpen(cell) <==> cell !in opaqueCells[..i])
    {
      walls.CloseCell(opaqueCells[i]);
      assert opaqueCells[..i + 1] == opaqueCells[..i] + [opaqueCells[i]];
    }
    assert opaqueCells[..|opaqueCells|] == opaqueCells;
  }
}
