/** Cuts a frame into tiles (datapro1/src/datarpoFragmentation.cpp). All tiles of a row have the same width but the
    last one, which also gets a remainder. */
module Tiling {
  import opened Naturals
  import opened Options

  /** The number of tiles in the direction that has fewer of them. */
  function Shorter(grid: (nat, nat)): nat {
    if grid.0 < grid.1 then grid.0 else grid.1
  }

  /** calcNumberFrag: how many tiles there are across and down; `None` where the source leaves its outputs unset. */
  function NumberFrag(tilesFactor: nat, width: int, height: int): (r: Option<(nat, nat)>)
    ensures r.Some? ==> r.value.0 > 0 && r.value.1 > 0 && r.value.0 * r.value.1 <= tilesFactor
    ensures r.Some? ==> r.value.0 * r.value.1 == (if tilesFactor >= 28 then 28
                                                  else if tilesFactor in {14, 22, 26} then tilesFactor - 2 else tilesFactor)
    ensures r.Some? ==> Shorter(r.value) == (if tilesFactor <= 2 then 1 else if tilesFactor <= 10 then 2
                                             else if tilesFactor == 16 || tilesFactor >= 20 then 4 else 3)
    ensures r.Some? && r.value.0 != r.value.1 ==> (r.value.0 > r.value.1 <==> width > height)
    ensures r == None <==> tilesFactor == 0 || (tilesFactor < 28 && tilesFactor % 2 == 1 && tilesFactor != 1)
  {
    var wide := width > height;
    if tilesFactor == 1 then Some((1, 1))
    else if tilesFactor == 2 then Some(if wide then (2, 1) else (1, 2))
    else if tilesFactor == 6 then Some(if wide then (3, 2) else (2, 3))
    else if tilesFactor == 4 then Some((2, 2))
    else if tilesFactor == 8 then Some(if wide then (4, 2) else (2, 4))
    else if tilesFactor == 10 then Some(if wide then (5, 2) else (2, 5))
    else if tilesFactor == 12 || tilesFactor == 14 then Some(if wide then (4, 3) else (3, 4))
    else if tilesFactor == 16 then Some((4, 4))
    else if tilesFactor == 18 then Some(if wide then (6, 3) else (3, 6))
    else if tilesFactor == 20 || tilesFactor == 22 then Some(if wide then (5, 4) else (4, 5))
    else if tilesFactor == 24 || tilesFactor == 26 then Some(if wide then (6, 4) else (4, 6))
    else if tilesFactor >= 28 then Some(if wide then (7, 4) else (4, 7))
    else None
  }

  /** One dimension of the frame: its size and the number of parts. */
  datatype Axis = Axis(size: nat, num: nat) {
    /** A part of size 0 would make the remainder below divide by zero. */
    predicate Valid() {
      0 < num <= size
    }

    /** calcSizePart: the size of a part ... */
    function Part(): nat
      requires Valid()
    {
      size / num
    }

    /** ... and of the last part. */
    function LastPart(): nat
      requires Valid()
    {
      PartPositive();
      Part() + size % Part()
    }

    lemma PartPositive()
      requires Valid()
      ensures Part() > 0 && size == Mul(Part(), num) + size % num
    {
      DivMod(size, num);
    }

    /** Where the rectangle of part `j` starts, and how long it is. */
    function Start(j: nat): nat
      requires Valid()
    {
      Mul(Part(), j)
    }

    function Length(j: nat): nat
      requires Valid()
    {
      if j == num - 1 then LastPart() else Part()
    }

    predicate Has(j: nat, x: nat)
      requires Valid()
    {
      j < num && Start(j) <= x < Start(j) + Length(j)
    }

    /** Where the last part ends. */
    function End(): nat
      requires Valid()
    {
      Start(num - 1) + LastPart()
    }

    lemma Ends()
      requires Valid()
      ensures End() == Mul(Part(), num) + size % Part() && End() <= size
      ensures End() == size <==> size % num < Part()
      ensures size % Part() == (size % num) % Part()
    {
      PartPositive();
      var p, r := Part(), size % num;
      hide Mul, Part;
      MulSteps(p, num - 1, num);
      ModAbsorbs(p, num, r);
      DivMod(r, p);
      if r < p {
        ModUnique(r, p, 0, r) by { assert Mul(p, 0) == 0 by { MulIsZero(p, 0); } }
      }
    }

    lemma StartsInOrder(j: nat, k: nat)
      requires Valid() && j < k
      ensures Start(j) + Part() <= Start(k)
    {
      MulSteps(Part(), j, k);
    }

    /** No part reaches beyond the frame. */
    lemma Inside(j: nat)
      requires Valid() && j < num
      ensures Start(j) + Length(j) <= size
    {
      Ends();
      if j < num - 1 {
        StartsInOrder(j, num - 1);
      }
    }

    lemma Disjoint(j: nat, k: nat, x: nat)
      requires Valid() && Has(j, x) && Has(k, x)
      ensures j == k
    {
      if j < k {
        StartsInOrder(j, k);
      } else if k < j {
        StartsInOrder(k, j);
      }
    }

    /** The part that holds `x`. */
    function PartOf(x: nat): nat
      requires Valid()
    {
      PartPositive();
      var q := x / Part();
      if q < num then q else num - 1
    }

    lemma Covered(x: nat)
      requires Valid()
      ensures Has(PartOf(x), x) <==> x < End()
      ensures x >= End() ==> forall j :: !Has(j, x)
    {
      if x >= End() {
        forall j | 0 <= j < num ensures !Has(j, x) {
          BeforeEnd(j);
        }
      } else {
        HasPart(x);
      }
    }

    /** The last part ends last. */
    lemma BeforeEnd(j: nat)
      requires Valid() && j < num
      ensures Start(j) + Length(j) <= End()
    {
      hide Start, Part;
      if j < num - 1 {
        StartsInOrder(j, num - 1);
      }
    }

    lemma HasPart(x: nat)
      requires Valid() && x < End()
      ensures Has(PartOf(x), x)
    {
      PartPositive();
      var p, q := Part(), x / Part();
      DivMod(x, p);
      assert Start(q) == Mul(p, q);
      if q >= num {
        StartsInOrder(num - 1, q);
      }
      hide Mul, Part, LastPart, Start;
    }
  }

  // ----- the tiles

  datatype Rect = Rect(x: nat, y: nat, width: nat, height: nat)

  /** splitImage: the rectangle of the tile in row `i` and column `j`. */
  function Roi(across: Axis, down: Axis, i: nat, j: nat): Rect
    requires across.Valid() && down.Valid()
  {
    Rect(across.Start(j), down.Start(i),
         if j == across.num - 1 then across.LastPart() else across.Part(),
         if i == down.num - 1 then down.LastPart() else down.Part())
  }

  predicate InRect(r: Rect, x: nat, y: nat) {
    r.x <= x < r.x + r.width && r.y <= y < r.y + r.height
  }

  predicate InTile(across: Axis, down: Axis, i: nat, j: nat, x: nat, y: nat)
    requires across.Valid() && down.Valid()
  {
    i < down.num && j < across.num && InRect(Roi(across, down, i, j), x, y)
  }

  /** Every tile is within the frame, so the size check of splitImage never reports an error. */
  lemma TilesInside(across: Axis, down: Axis, i: nat, j: nat)
    requires across.Valid() && down.Valid() && i < down.num && j < across.num
    ensures var r := Roi(across, down, i, j);
            r.x + r.width <= across.size && r.y + r.height <= down.size && r.width > 0 && r.height > 0
  {
    across.Inside(j);
    down.Inside(i);
    across.PartPositive();
    down.PartPositive();
  }

  /** No pixel is in two tiles. */
  lemma TilesDisjoint(across: Axis, down: Axis, i: nat, j: nat, i': nat, j': nat, x: nat, y: nat)
    requires across.Valid() && down.Valid()
    requires InTile(across, down, i, j, x, y) && InTile(across, down, i', j', x, y)
    ensures i == i' && j == j'
  {
    across.Disjoint(j, j', x);
    down.Disjoint(i, i', y);
  }

  ghost predicate HasTile(across: Axis, down: Axis, x: nat, y: nat)
    requires across.Valid() && down.Valid()
  {
    exists i, j :: InTile(across, down, i, j, x, y)
  }

  lemma HasTileIff(across: Axis, down: Axis, x: nat, y: nat)
    requires across.Valid() && down.Valid()
    ensures HasTile(across, down, x, y) <==> x < across.End() && y < down.End()
  {
    across.Covered(x);
    down.Covered(y);
    if x < across.End() && y < down.End() {
      assert InTile(across, down, down.PartOf(y), across.PartOf(x), x, y);
    }
    if HasTile(across, down, x, y) {
      var i, j :| InTile(across, down, i, j, x, y);
      assert across.Has(j, x) && down.Has(i, y);
    }
  }

  /** Every pixel is in a tile exactly when, in both dimensions, the pixels left over by the division are fewer than
      a part. Otherwise the last columns, or the last rows, are in no tile. */
  lemma TilesCoverIff(across: Axis, down: Axis)
    requires across.Valid() && down.Valid()
    ensures (forall x: nat, y: nat :: x < across.size && y < down.size ==> HasTile(across, down, x, y))
            <==> across.size % across.num < across.Part() && down.size % down.num < down.Part()
  {
    across.Ends();
    down.Ends();
    forall x: nat, y: nat | x < across.size && y < down.size
      ensures HasTile(across, down, x, y) <==> x < across.End() && y < down.End()
    {
      HasTileIff(across, down, x, y);
    }
    if across.End() < across.size {
      assert !HasTile(across, down, across.End(), 0);
    }
    if down.End() < down.size {
      assert !HasTile(across, down, 0, down.End());
    }
  }

  /** A frame of 11 columns that is cut into 4 parts across: parts of 2, a last part of 3, and the last two columns in no
      tile. */
  lemma SomeColumnsLost(y: nat)
    ensures NumberFrag(8, 11, 10) == Some((4, 2))
    ensures !HasTile(Axis(11, 4), Axis(10, 2), 9, y) && !HasTile(Axis(11, 4), Axis(10, 2), 10, y)
  {
    HasTileIff(Axis(11, 4), Axis(10, 2), 9, y);
    HasTileIff(Axis(11, 4), Axis(10, 2), 10, y);
  }
}
