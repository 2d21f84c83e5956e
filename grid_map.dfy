/**
 * The dense grid: GridMap<T> together with the VectorGrid<T> storage it
 * derives from. A grid owns width * height cells of one element type in a
 * flat vector, row after row with x running fastest, every cell starting at
 * the grid's default value.
 */
module Grids {
  import opened GridIndex
  import opened Wrappers

  class GridMap<T(==)> {
    var numCells: Size
    var resolution: Vec2
    var defaultValue: T
    var cells: array<T>

    /** The cell vector always holds exactly width * height cells. */
    ghost predicate Valid()
      reads this
    {
      cells.Length == numCells.w * numCells.h
    }

    /** A grid of the given size and resolution with every cell at the default. */
    constructor (numCells: Size, resolution: Vec2, defaultValue: T)
      ensures Valid() && fresh(cells)
      ensures this.numCells == numCells && this.resolution == resolution
      ensures this.defaultValue == defaultValue
      ensures forall i :: 0 <= i < cells.Length ==> cells[i] == defaultValue
    {
      this.numCells := numCells;
      this.resolution := resolution;
      this.defaultValue := defaultValue;
      cells := new T[numCells.w * numCells.h](_ => defaultValue);
    }

    /** The default-constructed grid: no cells. */
    constructor Empty(defaultValue: T)
      ensures Valid() && fresh(cells)
      ensures numCells == Size(0, 0) && resolution == Vec2(0.0, 0.0)
      ensures this.defaultValue == defaultValue && cells.Length == 0
    {
      numCells := Size(0, 0);
      resolution := Vec2(0.0, 0.0);
      this.defaultValue := defaultValue;
      cells := new T[0];
    }

    /** A copy with its own cell storage holding the same cells. */
    constructor Copy(other: GridMap<T>)
      requires other.Valid()
      ensures Valid() && fresh(cells)
      ensures numCells == other.numCells && resolution == other.resolution
      ensures defaultValue == other.defaultValue
      ensures cells[..] == other.cells[..]
    {
      numCells := other.numCells;
      resolution := other.resolution;
      defaultValue := other.defaultValue;
      var src := other.cells;
      cells := new T[src.Length](i requires 0 <= i < src.Length reads src => src[i]);
    }

    /** Bounds-checked read access: fails outside [0, numCells) on either axis. */
    function At(idx: Index): (r: Option<T>)
      reads this, cells
      requires Valid()
      ensures r.Some? <==> InGrid(idx, numCells)
      ensures r.Some? ==> r.value == cells[Offset(idx, numCells)]
    {
      if InGrid(idx, numCells) then Some(cells[Offset(idx, numCells)]) else None
    }

    /**
     * Bounds-checked write access (at(idx) = value); ok is false, and nothing
     * changes, when idx is outside the grid.
     */
    method Put(idx: Index, value: T) returns (ok: bool)
      requires Valid()
      modifies cells
      ensures ok <==> InGrid(idx, numCells)
      ensures ok ==> cells[..] == old(cells[..])[Offset(idx, numCells) := value]
      ensures !ok ==> cells[..] == old(cells[..])
    {
      ok := InGrid(idx, numCells);
      if ok {
        cells[Offset(idx, numCells)] := value;
      }
    }

    /** Resets every cell to the default value without changing the size. */
    method Clear()
      requires Valid()
      modifies cells
      ensures forall i :: 0 <= i < cells.Length ==> cells[i] == defaultValue
    {
      forall i | 0 <= i < cells.Length {
        cells[i] := defaultValue;
      }
    }

    /** Reallocates the cells for a new size; every cell holds the default value. */
    method Resize(newNumCells: Size)
      modifies this
      ensures Valid() && fresh(cells) && numCells == newNumCells
      ensures resolution == old(resolution) && defaultValue == old(defaultValue)
      ensures forall i :: 0 <= i < cells.Length ==> cells[i] == defaultValue
    {
      var d := defaultValue;
      numCells := newNumCells;
      cells := new T[newNumCells.w * newNumCells.h](_ => d);
    }

    /**
     * VectorGrid::getRange: the positions, in the flat cell vector, of the
     * first and of the last cell whose value differs from the default; both
     * are the end position cells.Length when every cell holds the default.
     */
    method GetRange() returns (first: nat, last: nat)
      requires Valid()
      ensures first <= last <= cells.Length
      ensures first == cells.Length <==> forall i :: 0 <= i < cells.Length ==> cells[i] == defaultValue
      ensures first == cells.Length ==> last == cells.Length
      ensures first < cells.Length ==> last < cells.Length && cells[first] != defaultValue && cells[last] != defaultValue
      ensures forall i :: 0 <= i < first ==> cells[i] == defaultValue
      ensures forall i :: last < i < cells.Length ==> cells[i] == defaultValue
    {
      first := 0;
      while first < cells.Length && cells[first] == defaultValue
        invariant first <= cells.Length
        invariant forall i :: 0 <= i < first ==> cells[i] == defaultValue
      {
        first := first + 1;
      }
      if first == cells.Length {
        return first, cells.Length;
      }
      last := cells.Length - 1;
      while cells[last] == defaultValue
        invariant first <= last < cells.Length
        invariant forall i :: last < i < cells.Length ==> cells[i] == defaultValue
        decreases last
      {
        last := last - 1;
      }
    }
  }

  /**
   * The scenario of the getRange unit test on a 2 x 3 grid with default -5:
   * each assertion follows from the contracts above alone.
   */
  method GetRangeScenario() {
    var g := new GridMap<real>(Size(2, 3), Vec2(1.0, 1.0), -5.0);
    var first, last := g.GetRange();
    assert first == last == 6;

    var ok := g.Put(Index(0, 0), 0.0);
    first, last := g.GetRange();
    assert g.cells[0] == 0.0;
    assert first == 0 && last == 0;

    ok := g.Put(Index(0, 0), -5.0);
    ok := g.Put(Index(1, 2), 5.0);
    first, last := g.GetRange();
    assert g.cells[5] == 5.0;
    assert first == 5 && last == 5;

    ok := g.Put(Index(0, 0), 0.0);
    first, last := g.GetRange();
    assert g.cells[0] == 0.0 && g.cells[5] == 5.0;
    assert first == 0 && last == 5;

    ok := g.Put(Index(0, 0), -5.0);
    ok := g.Put(Index(1, 2), -5.0);
    ok := g.Put(Index(1, 0), 1.0);
    ok := g.Put(Index(0, 2), 4.0);
    first, last := g.GetRange();
    assert g.cells[0] == -5.0 && g.cells[1] == 1.0 && g.cells[4] == 4.0 && g.cells[5] == -5.0;
    assert first == 1 && last == 4;
    assert g.cells[first] == 1.0 && g.cells[last] == 4.0;
  }
}
