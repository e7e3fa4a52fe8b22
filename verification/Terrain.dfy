/** match_static.rs: the run-length ground of a match and its seats, checked and laid out. */
module Terrain {
  import opened Machine
  import opened Arithmetic

  const MAX_TERRAIN_AXIS: u32 := 512
  const MAX_SEATS: nat := 10
  const U64_MAX: u64 := 0xffff_ffff_ffff_ffff

  /** So many cells of one kind. */
  datatype TerrainRun = TerrainRun(run: u16, cell: u8)

  datatype StaticError =
    | TerrainAxis(axis: u32)
    | ZeroTerrainRun(index: nat)
    | TerrainCoverage(actual: u64, expected: u64)
    | PickSlotOutOfRange(slot: u8)
    | DuplicatePickSlot(slot: u8)

  function Covered(runs: seq<TerrainRun>): nat {
    if runs == [] then 0 else Covered(runs[..|runs| - 1]) + runs[|runs| - 1].run
  }

  /** The ground the runs stand for, cell by cell. */
  function Ground(runs: seq<TerrainRun>): (cells: seq<u8>)
    ensures |cells| == Covered(runs)
  {
    if runs == [] then [] else Ground(runs[..|runs| - 1]) + seq(runs[|runs| - 1].run, _ => runs[|runs| - 1].cell)
  }

  lemma SquareFits(axis: u32)
    requires axis <= MAX_TERRAIN_AXIS
    ensures 0 <= axis * axis <= 262144
  {
    SquareMono(axis, MAX_TERRAIN_AXIS);
  }

  /** The checks pass exactly on ground without an empty run that covers every cell once. */
  method CheckTerrain(axis: u32, runs: seq<TerrainRun>) returns (error: Option<StaticError>)
    ensures error == None <==>
            0 < axis <= MAX_TERRAIN_AXIS && (forall i :: 0 <= i < |runs| ==> runs[i].run > 0) &&
              |Ground(runs)| == axis * axis
  {
    if axis == 0 || axis > MAX_TERRAIN_AXIS {
      return Some(TerrainAxis(axis));
    }
    SquareFits(axis);
    for index := 0 to |runs|
      invariant forall i :: 0 <= i < index ==> runs[i].run > 0
    {
      if runs[index].run == 0 {
        return Some(ZeroTerrainRun(index));
      }
    }
    var expected: u64 := axis * axis;
    var actual: u64 := 0;
    for index := 0 to |runs|
      invariant actual == Min(Covered(runs[..index]), U64_MAX)
    {
      assert runs[..index + 1][..index] == runs[..index];
      actual := Min(actual + runs[index].run, U64_MAX);
    }
    assert runs[..|runs|] == runs;
    return if actual != expected then Some(TerrainCoverage(actual, expected)) else None;
  }

  method DecodeTerrain(runs: seq<TerrainRun>) returns (terrain: seq<u8>)
    ensures terrain == Ground(runs)
  {
    terrain := [];
    for index := 0 to |runs|
      invariant terrain == Ground(runs[..index])
    {
      assert runs[..index + 1][..index] == runs[..index];
      terrain := terrain + seq(runs[index].run, _ => runs[index].cell);
    }
    assert runs[..|runs|] == runs;
  }

  lemma {:induction false} GroundJoins(a: seq<TerrainRun>, b: seq<TerrainRun>)
    ensures Ground(a + b) == Ground(a) + Ground(b)
  {
    if b == [] {
      assert a + b == a;
    } else {
      assert (a + b)[..|a + b| - 1] == a + b[..|b| - 1];
      GroundJoins(a, b[..|b| - 1]);
    }
  }

  /** Every cell of a run lies after all the runs before it, and is of its kind. */
  lemma CellOfRun(runs: seq<TerrainRun>, index: nat, offset: nat)
    requires index < |runs| && offset < runs[index].run
    ensures Covered(runs[..index]) + offset < |Ground(runs)| &&
            Ground(runs)[Covered(runs[..index]) + offset] == runs[index].cell
  {
    var upTo := runs[..index + 1];
    assert upTo[..index] == runs[..index] && runs == upTo + runs[index + 1..];
    GroundJoins(upTo, runs[index + 1..]);
  }

  /** The seats of a match as picked. */
  method ValidatePicks(slots: seq<u8>) returns (error: Option<StaticError>)
    ensures error == None <==>
            (forall i :: 0 <= i < |slots| ==> slots[i] < MAX_SEATS) && forall i, j ::
              0 <= i < j < |slots| ==> slots[i] != slots[j]
  {
    for index := 0 to |slots|
      invariant forall i :: 0 <= i < index ==> slots[i] < MAX_SEATS
      invariant forall i, j :: 0 <= i < j < index ==> slots[i] != slots[j]
    {
      if slots[index] >= MAX_SEATS {
        return Some(PickSlotOutOfRange(slots[index]));
      }
      if slots[index] in slots[..index] {
        return Some(DuplicatePickSlot(slots[index]));
      }
    }
    return None;
  }
}
