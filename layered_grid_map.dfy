/**
 * LayeredGridMap: a registry of named grids ("layers") that all start with
 * the registry's cell count and resolution. Each layer is a GridMap of its
 * own element type; the element type is kept as an explicit tag next to the
 * grid, and typed lookups check it. Failures that the library reports by
 * throwing std::out_of_range or std::runtime_error are error results here.
 */
module Layered {
  import opened GridIndex
  import opened Wrappers
  import opened Grids

  /** The element types a layer can have (the T of GridMap<T>). */
  datatype ElemType = IntType | RealType | BoolType

  /** A cell value of some element type. */
  datatype Value = IntValue(i: int) | RealValue(r: real) | BoolValue(b: bool)

  function TypeOf(v: Value): ElemType {
    match v
    case IntValue(_) => IntType
    case RealValue(_) => RealType
    case BoolValue(_) => BoolType
  }

  /**
   * A stored layer: a grid of one of the element types. The variant is the
   * layer's type, so a layer's cells always have the type it is looked up by.
   */
  datatype Layer = IntLayer(ig: GridMap<int>) | RealLayer(rg: GridMap<real>) | BoolLayer(bg: GridMap<bool>)

  /** The element type a layer was created with (what dynamic_cast tests). */
  function ElemTypeOf(l: Layer): ElemType {
    match l
    case IntLayer(_) => IntType
    case RealLayer(_) => RealType
    case BoolLayer(_) => BoolType
  }

  /** g is a valid grid of the given size and resolution with every cell at its default value d. */
  ghost predicate FilledWith<T>(g: GridMap<T>, numCells: Size, resolution: Vec2, d: T)
    reads g, g.cells
  {
    && g.Valid() && g.numCells == numCells && g.resolution == resolution && g.defaultValue == d
    && forall i :: 0 <= i < g.cells.Length ==> g.cells[i] == d
  }

  /** The two exceptions of the registry. */
  datatype LayerError = OutOfRange | RuntimeError

  // ---------------------------------------------------------------------
  // The order of std::string keys: lexicographic, character by character.
  // ---------------------------------------------------------------------

  predicate KeyLess(a: string, b: string) {
    if a == [] then b != []
    else if b == [] then false
    else a[0] < b[0] || (a[0] == b[0] && KeyLess(a[1..], b[1..]))
  }

  lemma {:induction false} KeyLessIrreflexive(a: string)
    ensures !KeyLess(a, a)
  {
    if a != [] {
      KeyLessIrreflexive(a[1..]);
    }
  }

  lemma {:induction false} KeyLessTrans(a: string, b: string, c: string)
    requires KeyLess(a, b) && KeyLess(b, c)
    ensures KeyLess(a, c)
  {
    if a != [] && a[0] == b[0] && b[0] == c[0] {
      KeyLessTrans(a[1..], b[1..], c[1..]);
    }
  }

  lemma {:induction false} KeyLessTotal(a: string, b: string)
    ensures a == b || KeyLess(a, b) || KeyLess(b, a)
  {
    if a != [] && b != [] && a[0] == b[0] {
      KeyLessTotal(a[1..], b[1..]);
      if a[1..] == b[1..] {
        assert a == [a[0]] + a[1..] && b == [b[0]] + b[1..];
      }
    }
  }

  /** m is below or equal to every key of the set. */
  predicate LeastOf(m: string, keys: set<string>) {
    forall k :: k in keys ==> m == k || KeyLess(m, k)
  }

  /** Every finite non-empty set of keys has a least key. */
  lemma {:induction false} LeastKeyExists(keys: set<string>)
    requires keys != {}
    ensures exists m :: m in keys && LeastOf(m, keys)
    decreases |keys|
  {
    var x :| x in keys;
    var rest := keys - {x};
    if rest == {} {
      assert keys == {x};
      assert LeastOf(x, keys);
    } else {
      LeastKeyExists(rest);
      var m :| m in rest && LeastOf(m, rest);
      KeyLessTotal(m, x);
      if KeyLess(m, x) {
        LeastAdd(m, rest, x);
        assert rest + {x} == keys;
      } else {
        BelowLeast(x, m, rest);
        assert rest + {x} == keys;
      }
    }
  }

  /** A least key stays least when a key above it is added. */
  lemma LeastAdd(m: string, rest: set<string>, x: string)
    requires LeastOf(m, rest) && KeyLess(m, x)
    ensures LeastOf(m, rest + {x})
  {
  }

  /** A key below the least key of a set is the least key of the set with it added. */
  lemma BelowLeast(x: string, m: string, rest: set<string>)
    requires LeastOf(m, rest) && m in rest && (m == x || KeyLess(x, m))
    ensures LeastOf(x, rest + {x})
  {
    forall k | k in rest + {x}
      ensures x == k || KeyLess(x, k)
    {
      if k != x && m != k && x != m {
        KeyLessTrans(x, m, k);
      }
    }
  }

  /** Keys in strictly ascending order, hence each at most once. */
  predicate Ascending(keys: seq<string>) {
    forall i, j :: 0 <= i < j < |keys| ==> KeyLess(keys[i], keys[j])
  }

  class LayeredGridMap {
    var numCells: Size
    var resolution: Vec2
    var layers: map<string, Layer>

    /** The default registry: no cells, zero resolution, no layers. */
    constructor ()
      ensures numCells == Size(0, 0) && resolution == Vec2(0.0, 0.0) && layers == map[]
    {
      numCells := Size(0, 0);
      resolution := Vec2(0.0, 0.0);
      layers := map[];
    }

    /** A registry for grids of the given size and resolution; no layer is created. */
    constructor Sized(numCells: Size, resolution: Vec2)
      ensures this.numCells == numCells && this.resolution == resolution && layers == map[]
    {
      this.numCells := numCells;
      this.resolution := resolution;
      layers := map[];
    }

    /** hasLayer: the key names a stored layer. */
    predicate HasLayer(key: string)
      reads this
      ensures HasLayer(key) <==> key in layers.Keys
    {
      key in layers
    }

    /**
     * addLayer<T>(key, default_value): fails with out_of_range, changing
     * nothing, when the key is taken; otherwise stores, under the key, a new
     * grid of the default value's element type, of the registry's size and
     * resolution with every cell at the default value, and returns it.
     */
    method AddLayer(key: string, defaultValue: Value) returns (r: Result<Layer, LayerError>)
      modifies this
      ensures numCells == old(numCells) && resolution == old(resolution)
      ensures old(HasLayer(key)) ==> r == Failure(OutOfRange) && layers == old(layers)
      ensures !old(HasLayer(key)) ==>
        && r.Success? && ElemTypeOf(r.value) == TypeOf(defaultValue)
        && layers == old(layers)[key := r.value] && HasLayer(key)
        && match r.value
           case IntLayer(g) => fresh(g) && fresh(g.cells) && FilledWith(g, numCells, resolution, defaultValue.i)
           case RealLayer(g) => fresh(g) && fresh(g.cells) && FilledWith(g, numCells, resolution, defaultValue.r)
           case BoolLayer(g) => fresh(g) && fresh(g.cells) && FilledWith(g, numCells, resolution, defaultValue.b)
    {
      if HasLayer(key) {
        return Failure(OutOfRange);
      }
      var layer;
      match defaultValue {
        case IntValue(d) =>
          var g := new GridMap(numCells, resolution, d);
          layer := IntLayer(g);
        case RealValue(d) =>
          var g := new GridMap(numCells, resolution, d);
          layer := RealLayer(g);
        case BoolValue(d) =>
          var g := new GridMap(numCells, resolution, d);
          layer := BoolLayer(g);
      }
      layers := layers[key := layer];
      return Success(layer);
    }

    /** removeLayer: false, changing nothing, for an absent key; otherwise drops only that key. */
    method RemoveLayer(key: string) returns (removed: bool)
      modifies this
      ensures numCells == old(numCells) && resolution == old(resolution)
      ensures removed <==> old(HasLayer(key))
      ensures layers == old(layers) - {key}
      ensures !HasLayer(key)
    {
      if !HasLayer(key) {
        return false;
      }
      layers := layers - {key};
      return true;
    }

    /** removeAllLayers: no layer is left. */
    method RemoveAllLayers()
      modifies this
      ensures numCells == old(numCells) && resolution == old(resolution)
      ensures layers == map[]
    {
      layers := map[];
    }

    /**
     * getLayer<T>(key) through getGridMapPtr<T>: out_of_range for an absent
     * key (checked first), runtime_error when the stored layer's element
     * type is not T, and otherwise the stored layer itself, whose grid has
     * cells of type T.
     */
    function GetLayer(key: string, t: ElemType): (r: Result<Layer, LayerError>)
      reads this
      ensures !HasLayer(key) <==> r == Failure(OutOfRange)
      ensures HasLayer(key) && ElemTypeOf(layers[key]) != t <==> r == Failure(RuntimeError)
      ensures r.Success? <==> HasLayer(key) && ElemTypeOf(layers[key]) == t
      ensures r.Success? ==> r.value == layers[key] && ElemTypeOf(r.value) == t
    {
      if !HasLayer(key) then Failure(OutOfRange)
      else if ElemTypeOf(layers[key]) != t then Failure(RuntimeError)
      else Success(layers[key])
    }

    /**
     * getAllLayerKeys: walks the layer map in its order, ascending by key,
     * so every stored key comes exactly once and in ascending order.
     */
    method GetAllLayerKeys() returns (keys: seq<string>)
      ensures Ascending(keys)
      ensures forall k :: k in keys <==> k in layers
      ensures |keys| == |layers|
    {
      keys := [];
      var rest := layers.Keys;
      while rest != {}
        invariant rest <= layers.Keys
        invariant forall k :: k in keys <==> k in layers && k !in rest
        invariant |keys| + |rest| == |layers|
        invariant Ascending(keys)
        invariant forall i, k :: 0 <= i < |keys| && k in rest ==> KeyLess(keys[i], k)
        decreases |rest|
      {
        LeastKeyExists(rest);
        var k :| k in rest && LeastOf(k, rest);
        keys := keys + [k];
        rest := rest - {k};
      }
    }
  }

  /**
   * A registry's life: a layer is added, a second add under the same key
   * fails, and lookups check the key before the type. Each assertion here
   * and in the two scenarios below follows from the contracts above alone.
   */
  method LayeredScenario() {
    var m := new LayeredGridMap.Sized(Size(2, 3), Vec2(0.5, 0.5));
    var r := m.AddLayer("height", IntValue(0));
    assert r.Success? && r.value.IntLayer? && r.value.ig.cells.Length == 6;
    var layer := r.value;
    var again := m.AddLayer("height", RealValue(1.0));
    assert again == Failure(OutOfRange) && m.layers["height"] == layer;

    assert m.GetLayer("height", IntType) == Success(layer);
    assert m.GetLayer("height", RealType) == Failure(RuntimeError);
    assert m.GetLayer("cost", IntType) == Failure(OutOfRange);
  }

  /** Keys come out in ascending order of the string order. */
  method LayeredKeysScenario() {
    var m := new LayeredGridMap.Sized(Size(2, 3), Vec2(0.5, 0.5));
    var r1 := m.AddLayer("height", IntValue(0));
    var r2 := m.AddLayer("cost", BoolValue(false));
    var keys := m.GetAllLayerKeys();
    assert "cost" in keys && "height" in keys && |keys| == 2;
    assert KeyLess("cost", "height");
    assert keys == ["cost", "height"];
  }

  /** Removing a key twice succeeds once; removing all layers, twice, leaves none and keeps the size. */
  method LayeredRemoveScenario() {
    var m := new LayeredGridMap.Sized(Size(2, 3), Vec2(0.5, 0.5));
    var r1 := m.AddLayer("height", IntValue(0));
    var r2 := m.AddLayer("cost", BoolValue(false));
    var removed := m.RemoveLayer("cost");
    assert removed && m.layers.Keys == {"height"};
    removed := m.RemoveLayer("cost");
    assert !removed;

    m.RemoveAllLayers();
    assert m.layers == map[];
    m.RemoveAllLayers();
    assert m.layers == map[] && m.numCells == Size(2, 3);
  }
}
