/** The grid filter against noisy regions (datapro2/src/datapro2.cpp, filter_noisy_regions). */
module NoiseFilter {
  import opened LeastSquares
  import opened Naturals
  import opened Sequences
  import opened TrackTypes

  predicate ObjectInsideBoundingBox(x: real, y: real, x1: real, y1: real, x2: real, y2: real) {
    (x >= x1 && x < x2) && (y >= y1 && y < y2)
  }

  predicate InBox(m: Measurement, i: int, j: int, size: int) {
    ObjectInsideBoundingBox(m.x, m.y, i as real, j as real, (i + size) as real, (j + size) as real)
  }

  function Pick(all: seq<Measurement>, p: Measurement -> bool): seq<Measurement> {
    if all == [] then []
    else Pick(all[..|all| - 1], p) + (if p(all[|all| - 1]) then [all[|all| - 1]] else [])
  }

  function BoxObjects(all: seq<Measurement>, i: int, j: int, size: int): seq<Measurement> {
    Pick(all, m => InBox(m, i, j, size))
  }

  function KeptObjects(all: seq<Measurement>, i: int, j: int, size: int, limit: int): seq<Measurement> {
    var box := BoxObjects(all, i, j, size);
    if |box| > AsUnsigned64(limit) then [] else box
  }

  /** The boxes of one column of the grid, from `j` on. */
  function Column(all: seq<Measurement>, i: int, j: int, height: int, size: int, limit: int): seq<Measurement>
    requires size > 0
    decreases height - j
  {
    if j >= height then [] else KeptObjects(all, i, j, size, limit) + Column(all, i, j + size, height, size, limit)
  }

  /** The columns of the grid, from `i` on. */
  function Columns(all: seq<Measurement>, i: int, width: int, height: int, size: int, limit: int): seq<Measurement>
    requires size > 0
    decreases width - i
  {
    if i >= width then []
    else Column(all, i, 0, height, size, limit) + Columns(all, i + size, width, height, size, limit)
  }

  function Filtered(all: seq<Measurement>, width: int, height: int, size: int, limit: int): seq<Measurement>
    requires size > 0
  {
    Columns(all, 0, width, height, size, limit)
  }

  /** One box of the grid: its objects are collected, and kept when they are not too many. */
  method FilterBox(i: int, j: int, size: int, limit: int, measurements: seq<Measurement>, before: seq<Measurement>)
    returns (filtered: seq<Measurement>)
    ensures filtered == before + KeptObjects(measurements, i, j, size, limit)
  {
    filtered := before;
    var boxObjects := [];
    for k := 0 to |measurements|
      invariant boxObjects == Pick(measurements[..k], m => InBox(m, i, j, size))
    {
      assert measurements[..k + 1][..k] == measurements[..k];
      if InBox(measurements[k], i, j, size) {
        boxObjects := boxObjects + [measurements[k]];
      }
    }
    assert measurements[..|measurements|] == measurements;
    assert boxObjects == BoxObjects(measurements, i, j, size);
    if !(|boxObjects| > AsUnsigned64(limit)) {
      for k := 0 to |boxObjects|
        invariant filtered == before + boxObjects[..k]
      {
        filtered := filtered + [boxObjects[k]];
      }
      assert boxObjects[..|boxObjects|] == boxObjects;
    }
  }

  method FilterNoisyRegions(width: int, height: int, size: int, limit: int, measurements: seq<Measurement>)
    returns (filtered: seq<Measurement>)
    requires size > 0
    ensures filtered == Filtered(measurements, width, height, size, limit)
  {
    filtered := [];
    var i := 0;
    while i < width
      invariant filtered + Columns(measurements, i, width, height, size, limit)
                == Columns(measurements, 0, width, height, size, limit)
      decreases width - i
    {
      ghost var before := filtered;
      var j := 0;
      while j < height
        invariant filtered + Column(measurements, i, j, height, size, limit)
                  == before + Column(measurements, i, 0, height, size, limit)
        decreases height - j
      {
        ghost var inner := filtered;
        filtered := FilterBox(i, j, size, limit, measurements, filtered);
        Assoc(inner, KeptObjects(measurements, i, j, size, limit), Column(measurements, i, j + size, height, size, limit));
        j := j + size;
      }
      assert filtered == before + Column(measurements, i, 0, height, size, limit);
      Assoc(before, Column(measurements, i, 0, height, size, limit), Columns(measurements, i + size, width, height, size, limit));
      i := i + size;
    }
  }

  // ----- the cells

  /** The number of the grid column (or row) that a coordinate lies in. */
  function CellIndex(x: real, size: int): int
    requires size > 0
  {
    (x / size as real).Floor
  }

  /** The number of cells that start inside an extent: its cells cover it, rounded up to whole cells. */
  function CellCount(extent: int, size: int): (n: nat)
    requires size > 0
  {
    if extent <= 0 then 0 else RoundsUp(extent, size); (extent + size - 1) / size
  }

  lemma RoundsUp(extent: int, size: int)
    requires size > 0 && extent > 0
    ensures var n := (extent + size - 1) / size; n > 0 && (n - 1) * size < extent <= n * size
  {
    var e, n := extent + size - 1, (extent + size - 1) / size;
    assert n * size <= e < n * size + size;
    assert (n - 1) * size == n * size - size;
  }

  lemma RealOrder(a: real, b: real, s: real)
    requires s > 0.0
    ensures a <= b <==> Times(a, s) <= Times(b, s)
  {
    if a <= b {
      assert (b - a) * s >= 0.0;
    } else {
      assert (a - b) * s > 0.0;
    }
  }

  lemma IntOrder(a: int, b: int, s: int)
    requires s > 0
    ensures a <= b <==> a * s <= b * s
  {
    if a <= b {
      assert (b - a) * s >= 0;
    } else {
      assert (a - b) * s > 0;
    }
  }

  /** The cells of one direction are disjoint and leave no gap. */
  lemma OneCell(x: real, a: int, size: int)
    requires size > 0
    ensures (a * size) as real <= x < (a * size) as real + size as real <==> a == CellIndex(x, size)
  {
    IndexTimesSize(a, size);
    QuotientTimesSize(x, size as real);
    hide Times;
    FloorBand(a, x / size as real, size as real);
  }

  lemma FloorBand(a: int, q: real, s: real)
    requires s > 0.0
    ensures Times(a as real, s) <= Times(q, s) < Times(a as real, s) + s <==> a == q.Floor
  {
    hide Times;
    RealOrder(a as real, q, s);
    RealOrder(a as real + 1.0, q, s);
    NextMultiple(a as real, s);
  }

  lemma NextMultiple(f: real, s: real)
    ensures Times(f + 1.0, s) == Times(f, s) + s
  {
  }

  lemma QuotientTimesSize(x: real, s: real)
    requires s > 0.0
    ensures Times(x / s, s) == x
  {
  }

  lemma IndexTimesSize(a: int, size: int)
    ensures (a * size) as real == Times(a as real, size as real)
  {
  }

  lemma CellStarts(a: int, extent: int, size: int)
    requires size > 0 && a >= 0
    ensures Start(a, size) < extent <==> a < CellCount(extent, size)
  {
    var n := CellCount(extent, size);
    if extent > 0 {
      RoundsUp(extent, size);
      IntOrder(a, n - 1, size);
      IntOrder(n, a, size);
    } else {
      IntOrder(0, a, size);
    }
  }

  // ----- what survives

  /** The cell of `m` is not too full. */
  predicate Quiet(all: seq<Measurement>, m: Measurement, size: int, limit: int)
    requires size > 0
  {
    |BoxObjects(all, CellIndex(m.x, size) * size, CellIndex(m.y, size) * size, size)| <= AsUnsigned64(limit)
  }

  predicate Survives(all: seq<Measurement>, m: Measurement, width: int, height: int, size: int, limit: int)
    requires size > 0
  {
    && 0.0 <= m.x < (CellCount(width, size) * size) as real
    && 0.0 <= m.y < (CellCount(height, size) * size) as real
    && Quiet(all, m, size, limit)
  }

  lemma {:induction false} PickSame(all: seq<Measurement>, p: Measurement -> bool, q: Measurement -> bool)
    requires forall m :: m in all ==> p(m) == q(m)
    ensures Pick(all, p) == Pick(all, q)
  {
    if all != [] {
      assert all[|all| - 1] in all;
      PickSame(all[..|all| - 1], p, q);
    }
  }

  lemma {:induction false} PickNone(all: seq<Measurement>, p: Measurement -> bool)
    requires forall m :: m in all ==> !p(m)
    ensures Pick(all, p) == []
  {
    if all != [] {
      assert all[|all| - 1] in all;
      PickNone(all[..|all| - 1], p);
    }
  }

  lemma {:induction false} PickSplit(all: seq<Measurement>, p: Measurement -> bool, q: Measurement -> bool, r: Measurement -> bool)
    requires forall m :: m in all ==> (p(m) <==> q(m) || r(m)) && !(q(m) && r(m))
    ensures multiset(Pick(all, p)) == multiset(Pick(all, q)) + multiset(Pick(all, r))
  {
    if all != [] {
      var m := all[|all| - 1];
      assert m in all;
      PickSplit(all[..|all| - 1], p, q, r);
    }
  }

  /** The measurements of quiet cells whose column and row numbers lie in the given ranges. */
  function Region(all: seq<Measurement>, a0: int, a1: int, b0: int, b1: int, size: int, limit: int): Measurement -> bool
    requires size > 0
  {
    (m: Measurement) => a0 <= CellIndex(m.x, size) < a1 && b0 <= CellIndex(m.y, size) < b1 && Quiet(all, m, size, limit)
  }

  /** Where the cell with a given number starts. */
  function Start(a: int, size: int): int {
    a * size
  }

  lemma NextStart(a: int, size: int)
    ensures Start(a + 1, size) == Start(a, size) + size
    ensures Start(0, size) == 0
  {
  }

  lemma KeptIsPick(all: seq<Measurement>, a: int, b: int, size: int, limit: int)
    requires size > 0
    ensures KeptObjects(all, Start(a, size), Start(b, size), size, limit) == Pick(all, Region(all, a, a + 1, b, b + 1, size, limit))
  {
    hide CellIndex;
    forall m | m in all
      ensures InBox(m, Start(a, size), Start(b, size), size) <==> a == CellIndex(m.x, size) && b == CellIndex(m.y, size)
    {
      OneCell(m.x, a, size);
      OneCell(m.y, b, size);
    }
    var p := Region(all, a, a + 1, b, b + 1, size, limit);
    if |BoxObjects(all, Start(a, size), Start(b, size), size)| > AsUnsigned64(limit) {
      PickNone(all, p);
    } else {
      PickSame(all, m => InBox(m, Start(a, size), Start(b, size), size), p);
    }
  }

  lemma RegionEmpty(all: seq<Measurement>, a0: int, a1: int, b0: int, b1: int, size: int, limit: int)
    requires size > 0 && (a0 >= a1 || b0 >= b1)
    ensures Pick(all, Region(all, a0, a1, b0, b1, size, limit)) == []
  {
    PickNone(all, Region(all, a0, a1, b0, b1, size, limit));
  }

  lemma SplitFirstRow(all: seq<Measurement>, a: int, b: int, b1: int, size: int, limit: int)
    requires size > 0 && b < b1
    ensures multiset(Pick(all, Region(all, a, a + 1, b, b1, size, limit)))
            == multiset(Pick(all, Region(all, a, a + 1, b, b + 1, size, limit)))
               + multiset(Pick(all, Region(all, a, a + 1, b + 1, b1, size, limit)))
  {
    hide CellIndex, Quiet;
    PickSplit(all, Region(all, a, a + 1, b, b1, size, limit), Region(all, a, a + 1, b, b + 1, size, limit),
              Region(all, a, a + 1, b + 1, b1, size, limit));
  }

  lemma SplitFirstColumn(all: seq<Measurement>, a: int, a1: int, b1: int, size: int, limit: int)
    requires size > 0 && a < a1
    ensures multiset(Pick(all, Region(all, a, a1, 0, b1, size, limit)))
            == multiset(Pick(all, Region(all, a, a + 1, 0, b1, size, limit)))
               + multiset(Pick(all, Region(all, a + 1, a1, 0, b1, size, limit)))
  {
    hide CellIndex, Quiet;
    PickSplit(all, Region(all, a, a1, 0, b1, size, limit), Region(all, a, a + 1, 0, b1, size, limit),
              Region(all, a + 1, a1, 0, b1, size, limit));
  }

  lemma {:induction false} ColumnIsPick(all: seq<Measurement>, a: int, b: nat, height: int, size: int, limit: int)
    requires size > 0
    ensures multiset(Column(all, Start(a, size), Start(b, size), height, size, limit))
            == multiset(Pick(all, Region(all, a, a + 1, b, CellCount(height, size), size, limit)))
    decreases CellCount(height, size) - b
  {
    hide Pick, Region, CellCount, KeptObjects, Start;
    var n := CellCount(height, size);
    CellStarts(b, height, size);
    if b >= n {
      RegionEmpty(all, a, a + 1, b, n, size, limit);
    } else {
      NextStart(b, size);
      ColumnIsPick(all, a, b + 1, height, size, limit);
      KeptIsPick(all, a, b, size, limit);
      SplitFirstRow(all, a, b, n, size, limit);
    }
  }

  lemma {:induction false} ColumnsArePick(all: seq<Measurement>, a: nat, width: int, height: int, size: int, limit: int)
    requires size > 0
    ensures multiset(Columns(all, Start(a, size), width, height, size, limit))
            == multiset(Pick(all, Region(all, a, CellCount(width, size), 0, CellCount(height, size), size, limit)))
    decreases CellCount(width, size) - a
  {
    hide Pick, Region, CellCount, Column, Start;
    var n, h := CellCount(width, size), CellCount(height, size);
    CellStarts(a, width, size);
    if a >= n {
      RegionEmpty(all, a, n, 0, h, size, limit);
    } else {
      NextStart(a, size);
      ColumnsArePick(all, a + 1, width, height, size, limit);
      ColumnIsPick(all, a, 0, height, size, limit);
      SplitFirstColumn(all, a, n, h, size, limit);
    }
  }

  lemma InsideGrid(x: real, n: nat, size: int)
    requires size > 0
    ensures 0 <= CellIndex(x, size) < n <==> 0.0 <= x < (n * size) as real
  {
    var s := size as real;
    IndexTimesSize(n, size);
    IndexTimesSize(0, size);
    QuotientTimesSize(x, s);
    hide Times;
    RealOrder(0.0, x / s, s);
    RealOrder(n as real, x / s, s);
  }

  /** The filter returns, with the same multiplicity, exactly the measurements inside the grid whose cell holds
      at most the limit. The grid is the image with each extent rounded up to whole cells. */
  lemma FilterMeaning(all: seq<Measurement>, width: int, height: int, size: int, limit: int)
    requires size > 0
    ensures multiset(Filtered(all, width, height, size, limit))
            == multiset(Pick(all, m => Survives(all, m, width, height, size, limit)))
  {
    hide CellIndex, Quiet, CellCount;
    NextStart(0, size);
    ColumnsArePick(all, 0, width, height, size, limit);
    var n, h := CellCount(width, size), CellCount(height, size);
    forall m | m in all
      ensures 0 <= CellIndex(m.x, size) < n <==> 0.0 <= m.x < (n * size) as real
      ensures 0 <= CellIndex(m.y, size) < h <==> 0.0 <= m.y < (h * size) as real
    {
      InsideGrid(m.x, n, size);
      InsideGrid(m.y, h, size);
    }
    PickSame(all, Region(all, 0, n, 0, h, size, limit), m => Survives(all, m, width, height, size, limit));
  }

  // ----- the order of the output

  predicate InCell(m: Measurement, a: int, b: int, size: int)
    requires size > 0
  {
    CellIndex(m.x, size) == a && CellIndex(m.y, size) == b
  }

  /** The measurements of one cell, in their order. */
  function CellOf(all: seq<Measurement>, a: int, b: int, size: int): seq<Measurement>
    requires size > 0
  {
    Pick(all, m => InCell(m, a, b, size))
  }

  lemma KeptIsCell(all: seq<Measurement>, a: int, b: int, size: int, limit: int)
    requires size > 0
    ensures KeptObjects(all, Start(a, size), Start(b, size), size, limit)
            == if |CellOf(all, a, b, size)| <= AsUnsigned64(limit) then CellOf(all, a, b, size) else []
  {
    hide CellIndex;
    forall m | m in all ensures InBox(m, Start(a, size), Start(b, size), size) <==> InCell(m, a, b, size) {
      OneCell(m.x, a, size);
      OneCell(m.y, b, size);
    }
    PickSame(all, m => InBox(m, Start(a, size), Start(b, size), size), m => InCell(m, a, b, size));
  }

  lemma {:induction false} PickAppend(s: seq<Measurement>, t: seq<Measurement>, p: Measurement -> bool)
    ensures Pick(s + t, p) == Pick(s, p) + Pick(t, p)
  {
    if t == [] {
      assert s + t == s;
    } else {
      var n := |t| - 1;
      PickAppend(s, t[..n], p);
      assert (s + t)[..|s + t| - 1] == s + t[..n];
    }
  }

  lemma {:induction false} CellMembers(all: seq<Measurement>, a: int, b: int, size: int)
    requires size > 0
    ensures forall m :: m in CellOf(all, a, b, size) ==> InCell(m, a, b, size)
  {
    hide CellIndex;
    if all != [] {
      CellMembers(all[..|all| - 1], a, b, size);
    }
  }

  lemma {:induction false} PickAll(all: seq<Measurement>, p: Measurement -> bool)
    requires forall m :: m in all ==> p(m)
    ensures Pick(all, p) == all
  {
    if all != [] {
      PickAll(all[..|all| - 1], p);
      assert all[|all| - 1] in all;
    }
  }

  /** Measurement `m` comes from the same cell as `n` or from an earlier one: column by column, down each column. */
  predicate CellBefore(m: Measurement, n: Measurement, size: int)
    requires size > 0
  {
    var a, b := CellIndex(m.x, size), CellIndex(n.x, size);
    a < b || (a == b && CellIndex(m.y, size) <= CellIndex(n.y, size))
  }

  ghost predicate CellsAscend(s: seq<Measurement>, size: int)
    requires size > 0
  {
    forall i, j :: 0 <= i < j < |s| ==> CellBefore(s[i], s[j], size)
  }

  /** What a kept cell holds of another cell. */
  lemma CellOfKept(all: seq<Measurement>, a: int, b: int, c: int, d: int, size: int, limit: int)
    requires size > 0
    ensures var kept := KeptObjects(all, Start(a, size), Start(b, size), size, limit);
            && CellOf(kept, c, d, size) == (if (a, b) == (c, d) then kept else [])
            && CellsAscend(kept, size) && forall m :: m in kept ==> InCell(m, a, b, size)
  {
    KeptIsCell(all, a, b, size, limit);
    CellMembers(all, a, b, size);
    hide CellIndex, KeptObjects;
    var kept := KeptObjects(all, Start(a, size), Start(b, size), size, limit);
    if (a, b) == (c, d) {
      PickAll(kept, m => InCell(m, c, d, size));
    } else {
      PickNone(kept, m => InCell(m, c, d, size));
    }
    forall i, j | 0 <= i < j < |kept| ensures CellBefore(kept[i], kept[j], size) {
      assert InCell(kept[i], a, b, size) && InCell(kept[j], a, b, size);
    }
  }

  lemma AscendAppend(s: seq<Measurement>, t: seq<Measurement>, size: int)
    requires size > 0 && CellsAscend(s, size) && CellsAscend(t, size)
    requires forall m, n :: m in s && n in t ==> CellBefore(m, n, size)
    ensures CellsAscend(s + t, size)
  {
    hide CellBefore;
    forall i, j | 0 <= i < j < |s + t| ensures CellBefore((s + t)[i], (s + t)[j], size) {
      if i < |s| <= j {
        assert s[i] in s && t[j - |s|] in t;
      }
    }
  }

  /** A column from cell `b` on: its cells in order, and of each cell what is kept. */
  lemma {:induction false} ColumnOrder(all: seq<Measurement>, a: int, b: nat, height: int, size: int, limit: int, c: int, d: int)
    requires size > 0
    ensures var r := Column(all, Start(a, size), Start(b, size), height, size, limit);
            && CellOf(r, c, d, size) == (if a == c && b <= d < CellCount(height, size)
                                         then KeptObjects(all, Start(c, size), Start(d, size), size, limit) else [])
            && CellsAscend(r, size) && forall m :: m in r ==> CellIndex(m.x, size) == a && CellIndex(m.y, size) >= b
    decreases CellCount(height, size) - b
  {
    hide Pick, CellCount, KeptObjects, Start, CellIndex, InBox;
    var n := CellCount(height, size);
    CellStarts(b, height, size);
    if b >= n {
      CellOfNone(c, d, size);
    } else {
      NextStart(b, size);
      ColumnOrder(all, a, b + 1, height, size, limit, c, d);
      var kept := KeptObjects(all, Start(a, size), Start(b, size), size, limit);
      var rest := Column(all, Start(a, size), Start(b + 1, size), height, size, limit);
      assert Column(all, Start(a, size), Start(b, size), height, size, limit) == kept + rest;
      CellOfKept(all, a, b, c, d, size, limit);
      PickAppend(kept, rest, m => InCell(m, c, d, size));
      AscendAppend(kept, rest, size);
    }
  }

  lemma CellOfNone(c: int, d: int, size: int)
    requires size > 0
    ensures CellOf([], c, d, size) == []
  {
  }

  lemma {:induction false} ColumnsOrder(all: seq<Measurement>, a: nat, width: int, height: int, size: int, limit: int, c: int,
                                        d: int)
    requires size > 0
    ensures var r := Columns(all, Start(a, size), width, height, size, limit);
            && CellOf(r, c, d, size) == (if a <= c < CellCount(width, size) && 0 <= d < CellCount(height, size)
                                         then KeptObjects(all, Start(c, size), Start(d, size), size, limit) else [])
            && CellsAscend(r, size) && forall m :: m in r ==> CellIndex(m.x, size) >= a
    decreases CellCount(width, size) - a
  {
    hide Pick, CellCount, KeptObjects, Column, Start, CellIndex, InBox;
    var n := CellCount(width, size);
    CellStarts(a, width, size);
    if a >= n {
      CellOfNone(c, d, size);
    } else {
      NextStart(a, size);
      NextStart(0, size);
      ColumnsOrder(all, a + 1, width, height, size, limit, c, d);
      ColumnOrder(all, a, 0, height, size, limit, c, d);
      var column := Column(all, Start(a, size), 0, height, size, limit);
      var rest := Columns(all, Start(a + 1, size), width, height, size, limit);
      assert Columns(all, Start(a, size), width, height, size, limit) == column + rest;
      PickAppend(column, rest, m => InCell(m, c, d, size));
      AscendAppend(column, rest, size);
    }
  }

  /** The filter returns the cells of the grid column by column, and of each cell its measurements in their order when
      they are not more than the limit, else none. */
  lemma FilterOrder(all: seq<Measurement>, width: int, height: int, size: int, limit: int, a: int, b: int)
    requires size > 0
    ensures var r := Filtered(all, width, height, size, limit);
            && CellsAscend(r, size)
            && CellOf(r, a, b, size) == if 0 <= a < CellCount(width, size) && 0 <= b < CellCount(height, size)
                                           && |CellOf(all, a, b, size)| <= AsUnsigned64(limit)
                                        then CellOf(all, a, b, size) else []
  {
    hide Pick, CellCount, KeptObjects, Columns, CellIndex;
    NextStart(0, size);
    ColumnsOrder(all, 0, width, height, size, limit, a, b);
    KeptIsCell(all, a, b, size, limit);
  }
}
