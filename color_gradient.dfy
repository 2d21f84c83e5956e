/**
 * ColorGradient: a colour gradient given by control points, each a colour
 * and a position val along the gradient, kept in ascending order of val.
 * Colours and positions are reals here (the library uses float).
 */
module Gradient {

  /** A control point: red, green and blue, and its position along the gradient. */
  datatype ColorPoint = ColorPoint(r: real, g: real, b: real, val: real)

  /** The red, green and blue output of a lookup. */
  datatype Rgb = Rgb(red: real, green: real, blue: real)

  function ColorOf(p: ColorPoint): Rgb {
    Rgb(p.r, p.g, p.b)
  }

  /** Control points in non-decreasing order of position. */
  predicate Sorted(cs: seq<ColorPoint>) {
    forall i, j :: 0 <= i < j < |cs| ==> cs[i].val <= cs[j].val
  }

  /** The seven-point heat map: black, blue, cyan, green, yellow, red, white. */
  const HeatMap: seq<ColorPoint> := [
    ColorPoint(0.0, 0.0, 0.0, 0.0),
    ColorPoint(0.0, 0.0, 1.0, 0.1428),
    ColorPoint(0.0, 1.0, 1.0, 0.2856),
    ColorPoint(0.0, 1.0, 0.0, 0.4284),
    ColorPoint(1.0, 1.0, 0.0, 0.5712),
    ColorPoint(1.0, 0.0, 0.0, 0.7140),
    ColorPoint(1.0, 1.0, 1.0, 1.0)
  ]

  /**
   * The position of the first control point lying strictly above value, or
   * |cs| when none does: where addColorPoint inserts and where
   * getColorAtValue's search stops.
   */
  function FirstAbove(cs: seq<ColorPoint>, value: real): (i: nat)
    ensures i <= |cs|
    ensures forall j :: 0 <= j < i ==> !(value < cs[j].val)
    ensures i < |cs| ==> value < cs[i].val
  {
    if cs == [] then 0
    else if value < cs[0].val then 0
    else 1 + FirstAbove(cs[1..], value)
  }

  /** cs with p inserted at position i. */
  function InsertAt(cs: seq<ColorPoint>, i: nat, p: ColorPoint): seq<ColorPoint>
    requires i <= |cs|
  {
    cs[..i] + [p] + cs[i..]
  }

  /**
   * Inserting at FirstAbove keeps the points sorted and puts the new point
   * after every point of equal position; the old points keep their order.
   */
  lemma InsertKeepsSorted(cs: seq<ColorPoint>, p: ColorPoint)
    requires Sorted(cs)
    ensures Sorted(InsertAt(cs, FirstAbove(cs, p.val), p))
  {
    var i := FirstAbove(cs, p.val);
    var ns := InsertAt(cs, i, p);
    forall a, b | 0 <= a < b < |ns|
      ensures ns[a].val <= ns[b].val
    {
      if b == i {
        assert ns[a] == cs[a];
      } else if a == i {
        assert ns[b] == cs[b - 1];
      } else {
        var a' := if a < i then a else a - 1;
        var b' := if b < i then b else b - 1;
        assert ns[a] == cs[a'] && ns[b] == cs[b'];
      }
    }
  }

  /** The inserted point is the only new one: removing it gives back the old points in order. */
  lemma InsertKeepsOthers(cs: seq<ColorPoint>, i: nat, p: ColorPoint)
    requires i <= |cs|
    ensures |InsertAt(cs, i, p)| == |cs| + 1 && InsertAt(cs, i, p)[i] == p
    ensures InsertAt(cs, i, p)[..i] + InsertAt(cs, i, p)[i + 1..] == cs
    ensures multiset(InsertAt(cs, i, p)) == multiset(cs) + multiset{p}
  {
    var ns := InsertAt(cs, i, p);
    assert ns[..i] == cs[..i] && ns[i + 1..] == cs[i..];
    assert cs == cs[..i] + cs[i..];
  }

  /**
   * The interpolation of getColorAtValue between the control points prev
   * and curr, in real arithmetic: the fraction of the way from curr back
   * to prev, zero when both sit at the same position.
   */
  function Blend(prev: ColorPoint, curr: ColorPoint, value: real): Rgb {
    var valueDiff := prev.val - curr.val;
    var fractBetween := if valueDiff == 0.0 then 0.0 else (value - curr.val) / valueDiff;
    Rgb(Lerp(prev.r, curr.r, fractBetween), Lerp(prev.g, curr.g, fractBetween), Lerp(prev.b, curr.b, fractBetween))
  }

  /** One channel: (prev - curr) * fractBetween + curr. */
  function Lerp(prev: real, curr: real, fractBetween: real): real {
    (prev - curr) * fractBetween + curr
  }

  predicate Between(x: real, a: real, b: real) {
    (a <= x <= b) || (b <= x <= a)
  }

  lemma MulNonneg(x: real, y: real)
    requires 0.0 <= x && 0.0 <= y
    ensures 0.0 <= x * y
  {
  }

  /** A value below the first control point gets that point's colour exactly. */
  lemma BlendAtFirst(p: ColorPoint, value: real)
    ensures Blend(p, p, value) == ColorOf(p)
  {
  }

  /** The share of prev when value lies in [prev.val, curr.val). */
  lemma FractionBounds(pv: real, cv: real, value: real)
    requires pv <= value < cv
    ensures 0.0 < (value - cv) / (pv - cv) <= 1.0
  {
    var f := (value - cv) / (pv - cv);
    assert f * (pv - cv) == value - cv;
  }

  lemma LerpBetween(a: real, b: real, f: real)
    requires 0.0 <= f <= 1.0
    ensures Between(Lerp(a, b, f), a, b)
  {
    if a <= b {
      MulNonneg(b - a, 1.0 - f);
      MulNonneg(b - a, f);
    } else {
      MulNonneg(a - b, 1.0 - f);
      MulNonneg(a - b, f);
    }
  }

  /** Between two control points the colour lies, channel by channel, between theirs. */
  lemma BlendBetween(prev: ColorPoint, curr: ColorPoint, value: real)
    requires prev.val <= value < curr.val
    ensures Between(Blend(prev, curr, value).red, prev.r, curr.r)
    ensures Between(Blend(prev, curr, value).green, prev.g, curr.g)
    ensures Between(Blend(prev, curr, value).blue, prev.b, curr.b)
  {
    var f := (value - curr.val) / (prev.val - curr.val);
    FractionBounds(prev.val, curr.val, value);
    LerpBetween(prev.r, curr.r, f);
    LerpBetween(prev.g, curr.g, f);
    LerpBetween(prev.b, curr.b, f);
  }

  /** What getColorAtValue writes, or the old output when the gradient is empty. */
  function ColorAt(cs: seq<ColorPoint>, value: real, current: Rgb): Rgb {
    if cs == [] then current
    else
      var i := FirstAbove(cs, value);
      if i == |cs| then ColorOf(cs[|cs| - 1])
      else Blend(cs[if i == 0 then 0 else i - 1], cs[i], value)
  }

  /**
   * The cases of a lookup on sorted points: unchanged output for no points,
   * the first colour below the first position, the last colour at or above
   * the last, and otherwise a colour between those of the two enclosing
   * points.
   */
  lemma ColorAtCases(cs: seq<ColorPoint>, value: real, current: Rgb)
    requires Sorted(cs)
    ensures cs == [] ==> ColorAt(cs, value, current) == current
    ensures cs != [] && value < cs[0].val ==> ColorAt(cs, value, current) == ColorOf(cs[0])
    ensures cs != [] && (forall j :: 0 <= j < |cs| ==> !(value < cs[j].val)) ==>
      ColorAt(cs, value, current) == ColorOf(cs[|cs| - 1])
    ensures forall i :: 0 < i < |cs| && cs[i - 1].val <= value < cs[i].val ==>
      && Between(ColorAt(cs, value, current).red, cs[i - 1].r, cs[i].r)
      && Between(ColorAt(cs, value, current).green, cs[i - 1].g, cs[i].g)
      && Between(ColorAt(cs, value, current).blue, cs[i - 1].b, cs[i].b)
  {
    if cs != [] {
      var k := FirstAbove(cs, value);
      if k == 0 {
        BlendAtFirst(cs[0], value);
      }
      forall i | 0 < i < |cs| && cs[i - 1].val <= value < cs[i].val
        ensures && Between(ColorAt(cs, value, current).red, cs[i - 1].r, cs[i].r)
                && Between(ColorAt(cs, value, current).green, cs[i - 1].g, cs[i].g)
                && Between(ColorAt(cs, value, current).blue, cs[i - 1].b, cs[i].b)
      {
        assert k == i;
        BlendBetween(cs[i - 1], cs[i], value);
      }
    }
  }

  class ColorGradient {
    var color: seq<ColorPoint>

    ghost predicate Valid()
      reads this
    {
      Sorted(color)
    }

    /** A new gradient holds the default heat map. */
    constructor ()
      ensures color == HeatMap && Valid()
    {
      color := [];
      new;
      CreateDefaultHeatMapGradient();
    }

    /**
     * addColorPoint: inserts the point before the first point lying
     * strictly above value, or appends it when there is none.
     */
    method AddColorPoint(red: real, green: real, blue: real, value: real)
      modifies this
      ensures color == InsertAt(old(color), FirstAbove(old(color), value), ColorPoint(red, green, blue, value))
      ensures old(Valid()) ==> Valid()
    {
      var p := ColorPoint(red, green, blue, value);
      var i := 0;
      while i < |color|
        invariant i <= |color| && color == old(color)
        invariant forall j :: 0 <= j < i ==> !(value < color[j].val)
      {
        if value < color[i].val {
          FirstAboveIs(color, value, i);
          if Sorted(color) {
            InsertKeepsSorted(color, p);
          }
          color := color[..i] + [p] + color[i..];
          return;
        }
        i := i + 1;
      }
      FirstAboveIs(color, value, i);
      if Sorted(color) {
        InsertKeepsSorted(color, p);
      }
      assert color + [p] == color[..i] + [p] + color[i..];
      color := color + [p];
    }

    /** clearGradient: no point is left. */
    method ClearGradient()
      modifies this
      ensures color == [] && Valid()
    {
      color := [];
    }

    /** createDefaultHeatMapGradient: the points become the seven-point heat map, whatever they were. */
    method CreateDefaultHeatMapGradient()
      modifies this
      ensures color == HeatMap && Valid()
    {
      color := [];
      color := color + [ColorPoint(0.0, 0.0, 0.0, 0.0)];
      color := color + [ColorPoint(0.0, 0.0, 1.0, 0.1428)];
      color := color + [ColorPoint(0.0, 1.0, 1.0, 0.2856)];
      color := color + [ColorPoint(0.0, 1.0, 0.0, 0.4284)];
      color := color + [ColorPoint(1.0, 1.0, 0.0, 0.5712)];
      color := color + [ColorPoint(1.0, 0.0, 0.0, 0.7140)];
      color := color + [ColorPoint(1.0, 1.0, 1.0, 1.0)];
    }

    /**
     * getColorAtValue(value, red, green, blue): current is what the output
     * parameters hold on entry, out what they hold on return.
     */
    method GetColorAtValue(value: real, current: Rgb) returns (out: Rgb)
      ensures out == ColorAt(color, value, current)
      ensures color == [] ==> out == current
      ensures color != [] && FirstAbove(color, value) == |color| ==> out == ColorOf(color[|color| - 1])
      ensures color != [] && value < color[0].val ==> out == ColorOf(color[0])
    {
      if |color| == 0 {
        return current;
      }
      var i := 0;
      while i < |color|
        invariant i <= |color|
        invariant forall j :: 0 <= j < i ==> !(value < color[j].val)
      {
        var currC := color[i];
        if value < currC.val {
          FirstAboveIs(color, value, i);
          var prevC := color[if i - 1 > 0 then i - 1 else 0];
          var valueDiff := prevC.val - currC.val;
          var fractBetween := if valueDiff == 0.0 then 0.0 else (value - currC.val) / valueDiff;
          out := Rgb(Lerp(prevC.r, currC.r, fractBetween),
                     Lerp(prevC.g, currC.g, fractBetween),
                     Lerp(prevC.b, currC.b, fractBetween));
          assert prevC == color[if i == 0 then 0 else i - 1];
          return;
        }
        i := i + 1;
      }
      FirstAboveIs(color, value, i);
      out := ColorOf(color[|color| - 1]);
    }
  }

  /** The first point above value is at i when none before i is and the one at i is (or i is the end). */
  lemma FirstAboveIs(cs: seq<ColorPoint>, value: real, i: nat)
    requires i <= |cs| && forall j :: 0 <= j < i ==> !(value < cs[j].val)
    requires i < |cs| ==> value < cs[i].val
    ensures FirstAbove(cs, value) == i
  {
  }

  /** The heat map is sorted, and starts at 0 and ends at 1. */
  lemma HeatMapShape()
    ensures Sorted(HeatMap) && |HeatMap| == 7
    ensures HeatMap[0].val == 0.0 && HeatMap[6].val == 1.0
  {
  }
}
