/** Sum binning of a frame (datapro1/src/dp1_frame_proc.cpp): every block of factor x factor pixels becomes one. */
module Binning {
  import opened Naturals

  type Grid = seq<seq<int>>

  predicate Shaped(g: Grid, height: nat, width: nat) {
    |g| == height && forall y :: 0 <= y < height ==> |g[y]| == width
  }

  /** A frame of 8 or 16 bit pixels. */
  datatype Frame = Frame(channels: nat, rows: nat, cols: nat, px: Grid) {
    predicate Valid() {
      Shaped(px, rows, cols) && forall y, x :: 0 <= y < rows && 0 <= x < cols ==> 0 <= px[y][x] <= 65535
    }
  }

  datatype Result = Done(frame: Frame) | EmptyFrame | NotSingleChannel | NotDivisible

  predicate IsValidBinningFactor(factor: int) {
    factor == 1 || factor == 2 || factor == 4
  }

  // ----- sums

  function RowSum(row: seq<int>, x: nat, n: nat): int
    requires x + n <= |row|
    decreases n
  {
    if n == 0 then 0 else RowSum(row, x, n - 1) + row[x + n - 1]
  }

  predicate Within(g: Grid, y: nat, x: nat, h: nat, w: nat) {
    y + h <= |g| && forall i :: 0 <= i < |g| ==> x + w <= |g[i]|
  }

  /** The sum of the `h` x `w` pixels whose first is at row `y`, column `x`. */
  function BlockSum(g: Grid, y: nat, x: nat, h: nat, w: nat): int
    requires Within(g, y, x, h, w)
    decreases h
  {
    if h == 0 then 0 else BlockSum(g, y, x, h - 1, w) + RowSum(g[y + h - 1], x, w)
  }

  function Total(g: Grid, height: nat, width: nat): int
    requires Shaped(g, height, width)
  {
    BlockSum(g, 0, 0, height, width)
  }

  /** The grid splits into `rows` x `cols` blocks of `f` x `f`. */
  predicate Blocks(g: Grid, rows: nat, cols: nat, f: nat) {
    Shaped(g, Mul(rows, f), Mul(cols, f))
  }

  lemma BlockWithin(g: Grid, rows: nat, cols: nat, f: nat, y: nat, x: nat, h: nat, w: nat)
    requires Blocks(g, rows, cols, f) && y + h <= rows && x + w <= cols
    ensures Within(g, Mul(y, f), Mul(x, f), Mul(h, f), Mul(w, f))
  {
    MulAdd(y, h, f);
    MulAdd(x, w, f);
    MulAdd(y + h, rows - y - h, f);
    MulAdd(x + w, cols - x - w, f);
  }

  lemma MulOne(f: nat)
    ensures Mul(1, f) == f && Mul(0, f) == 0
  {
  }

  function Binned(g: Grid, rows: nat, cols: nat, f: nat): (b: Grid)
    requires Blocks(g, rows, cols, f)
    ensures Shaped(b, rows, cols)
  {
    seq(rows, oy requires 0 <= oy < rows =>
      seq(cols, ox requires 0 <= ox < cols =>
        MulOne(f);
        BlockWithin(g, rows, cols, f, oy, ox, 1, 1);
        BlockSum(g, Mul(oy, f), Mul(ox, f), f, f)))
  }

  // ----- sums of sums

  lemma {:induction false} RowSplit(row: seq<int>, x: nat, a: nat, b: nat)
    requires x + a + b <= |row|
    ensures RowSum(row, x, a + b) == RowSum(row, x, a) + RowSum(row, x + a, b)
    decreases b
  {
    if b > 0 {
      RowSplit(row, x, a, b - 1);
    }
  }

  lemma {:induction false} BlockAbove(g: Grid, y: nat, x: nat, a: nat, b: nat, w: nat)
    requires Within(g, y, x, a + b, w)
    ensures BlockSum(g, y, x, a + b, w) == BlockSum(g, y, x, a, w) + BlockSum(g, y + a, x, b, w)
    decreases b
  {
    if b > 0 {
      BlockAbove(g, y, x, a, b - 1, w);
    }
  }

  lemma {:induction false} BlockBeside(g: Grid, y: nat, x: nat, h: nat, a: nat, b: nat)
    requires Within(g, y, x, h, a + b)
    ensures BlockSum(g, y, x, h, a + b) == BlockSum(g, y, x, h, a) + BlockSum(g, y, x + a, h, b)
    decreases h
  {
    if h > 0 {
      BlockBeside(g, y, x, h - 1, a, b);
      RowSplit(g[y + h - 1], x, a, b);
    }
  }

  lemma MulMore(n: nat, f: nat)
    ensures Mul(n + 1, f) == Mul(n, f) + f
  {
  }

  lemma {:induction false} BinnedRow(g: Grid, rows: nat, cols: nat, f: nat, y: nat, x: nat, n: nat)
    requires Blocks(g, rows, cols, f) && y < rows && x + n <= cols
    ensures Within(g, Mul(y, f), Mul(x, f), f, Mul(n, f))
    ensures RowSum(Binned(g, rows, cols, f)[y], x, n) == BlockSum(g, Mul(y, f), Mul(x, f), f, Mul(n, f))
    decreases n
  {
    MulOne(f);
    BlockWithin(g, rows, cols, f, y, x, 1, n);
    hide Mul, Blocks;
    if n == 0 {
      NoColumns(g, Mul(y, f), Mul(x, f), f);
    } else {
      BinnedRow(g, rows, cols, f, y, x, n - 1);
      MulMore(n - 1, f);
      MulAdd(x, n - 1, f);
      BlockBeside(g, Mul(y, f), Mul(x, f), f, Mul(n - 1, f), f);
    }
  }

  lemma {:induction false} NoColumns(g: Grid, y: nat, x: nat, h: nat)
    requires Within(g, y, x, h, 0)
    ensures BlockSum(g, y, x, h, 0) == 0
    decreases h
  {
    if h > 0 {
      NoColumns(g, y, x, h - 1);
    }
  }

  /** A block of binned pixels has the sum of the pixels that it stands for. */
  lemma {:induction false} BinnedBlock(g: Grid, rows: nat, cols: nat, f: nat, y: nat, x: nat, h: nat, w: nat)
    requires Blocks(g, rows, cols, f) && y + h <= rows && x + w <= cols
    ensures Within(g, Mul(y, f), Mul(x, f), Mul(h, f), Mul(w, f))
    ensures BlockSum(Binned(g, rows, cols, f), y, x, h, w) == BlockSum(g, Mul(y, f), Mul(x, f), Mul(h, f), Mul(w, f))
    decreases h
  {
    BlockWithin(g, rows, cols, f, y, x, h, w);
    if h == 0 {
      MulOne(f);
    } else {
      BinnedBlock(g, rows, cols, f, y, x, h - 1, w);
      BinnedMore(g, rows, cols, f, y, x, h, w);
    }
  }

  lemma BinnedMore(g: Grid, rows: nat, cols: nat, f: nat, y: nat, x: nat, h: nat, w: nat)
    requires Blocks(g, rows, cols, f) && y + h <= rows && x + w <= cols && h > 0
    requires Within(g, Mul(y, f), Mul(x, f), Mul(h - 1, f), Mul(w, f))
    requires BlockSum(Binned(g, rows, cols, f), y, x, h - 1, w)
             == BlockSum(g, Mul(y, f), Mul(x, f), Mul(h - 1, f), Mul(w, f))
    ensures Within(g, Mul(y, f), Mul(x, f), Mul(h, f), Mul(w, f))
    ensures BlockSum(Binned(g, rows, cols, f), y, x, h, w) == BlockSum(g, Mul(y, f), Mul(x, f), Mul(h, f), Mul(w, f))
  {
    BlockWithin(g, rows, cols, f, y, x, h, w);
    var b := Binned(g, rows, cols, f);
    assert Within(b, y, x, h, w);
    hide *;
    BinnedRow(g, rows, cols, f, y + h - 1, x, w);
    MulMore(h - 1, f);
    MulAdd(y, h - 1, f);
    OneRowMore(b, y, x, h, w, g, Mul(y, f), Mul(x, f), Mul(h - 1, f), f, Mul(w, f));
  }

  lemma OneRowMore(b: Grid, y: nat, x: nat, h: nat, w: nat, g: Grid, gy: nat, gx: nat, gh: nat, f: nat, gw: nat)
    requires h > 0 && Within(b, y, x, h, w) && Within(g, gy, gx, gh + f, gw)
    requires BlockSum(b, y, x, h - 1, w) == BlockSum(g, gy, gx, gh, gw)
    requires RowSum(b[y + h - 1], x, w) == BlockSum(g, gy + gh, gx, f, gw)
    ensures BlockSum(b, y, x, h, w) == BlockSum(g, gy, gx, gh + f, gw)
  {
    BlockAbove(g, gy, gx, gh, f, gw);
    BlockLast(b, y, x, h, w);
    hide BlockSum, RowSum;
  }

  lemma BlockLast(g: Grid, y: nat, x: nat, h: nat, w: nat)
    requires Within(g, y, x, h, w)
    ensures BlockSum(g, y, x, h, w) == if h == 0 then 0 else BlockSum(g, y, x, h - 1, w) + RowSum(g[y + h - 1], x, w)
  {
  }

  /** Binning keeps the sum of all pixels. */
  lemma TotalKept(g: Grid, rows: nat, cols: nat, f: nat)
    requires Blocks(g, rows, cols, f)
    ensures Total(Binned(g, rows, cols, f), rows, cols) == Total(g, Mul(rows, f), Mul(cols, f))
  {
    BinnedBlock(g, rows, cols, f, 0, 0, rows, cols);
    MulOne(f);
  }

  /** Binning twice is binning once by the product of the factors. */
  lemma BinTwice(g: Grid, rows: nat, cols: nat, a: nat, b: nat)
    requires Blocks(g, rows, cols, Mul(a, b))
    ensures Blocks(g, Mul(rows, b), Mul(cols, b), a)
    ensures Binned(Binned(g, Mul(rows, b), Mul(cols, b), a), rows, cols, b) == Binned(g, rows, cols, Mul(a, b))
  {
    MulTurned(rows, a, b);
    MulTurned(cols, a, b);
    var once := Binned(g, Mul(rows, b), Mul(cols, b), a);
    var twice, direct := Binned(once, rows, cols, b), Binned(g, rows, cols, Mul(a, b));
    forall y, x | 0 <= y < rows && 0 <= x < cols ensures twice[y][x] == direct[y][x] {
      BlockWithin(once, rows, cols, b, y, x, 1, 1);
      MulOne(b);
      MulRoom(y, rows, b);
      MulRoom(x, cols, b);
      BinnedBlock(g, Mul(rows, b), Mul(cols, b), a, Mul(y, b), Mul(x, b), b, b);
      MulTurned(y, a, b);
      MulTurned(x, a, b);
      MulAssoc(a, b, 1);
    }
    SameGrid(twice, direct, rows, cols);
  }

  lemma MulRoom(y: nat, rows: nat, b: nat)
    requires y < rows
    ensures Mul(y, b) + b <= Mul(rows, b)
  {
    MulAdd(y + 1, rows - y - 1, b);
    MulMore(y, b);
  }

  lemma MulTurned(n: nat, a: nat, b: nat)
    ensures Mul(Mul(n, b), a) == Mul(n, Mul(a, b))
  {
    assert n * b * a == n * (a * b);
  }

  lemma SameGrid(a: Grid, b: Grid, height: nat, width: nat)
    requires Shaped(a, height, width) && Shaped(b, height, width)
    requires forall y, x :: 0 <= y < height && 0 <= x < width ==> a[y][x] == b[y][x]
    ensures a == b
  {
    assert forall y :: 0 <= y < height ==> a[y] == b[y];
  }

  /** Binning by 2 twice is binning by 4. */
  lemma TwoTwiceIsFour(g: Grid, rows: nat, cols: nat)
    requires Blocks(g, rows, cols, 4)
    ensures Blocks(g, Mul(rows, 2), Mul(cols, 2), 2)
    ensures Binned(Binned(g, Mul(rows, 2), Mul(cols, 2), 2), rows, cols, 2) == Binned(g, rows, cols, 4)
  {
    assert Mul(2, 2) == 4;
    BinTwice(g, rows, cols, 2, 2);
  }

  lemma {:induction false} RowBounded(row: seq<int>, x: nat, n: nat, most: nat)
    requires x + n <= |row| && forall i :: 0 <= i < |row| ==> 0 <= row[i] <= most
    ensures 0 <= RowSum(row, x, n) <= Mul(n, most)
    decreases n
  {
    if n > 0 {
      RowBounded(row, x, n - 1, most);
      MulMore(n - 1, most);
    }
  }

  lemma {:induction false} BlockBounded(g: Grid, y: nat, x: nat, h: nat, w: nat, most: nat)
    requires Within(g, y, x, h, w)
    requires forall i, j :: 0 <= i < |g| && 0 <= j < |g[i]| ==> 0 <= g[i][j] <= most
    ensures 0 <= BlockSum(g, y, x, h, w) <= Mul(h, Mul(w, most))
    decreases h
  {
    if h > 0 {
      BlockBounded(g, y, x, h - 1, w, most);
      RowBounded(g[y + h - 1], x, w, most);
      MulMore(h - 1, Mul(w, most));
    }
  }

  /** The largest factor for which the sums of every 16 bit frame fit an int. */
  const MAX_FACTOR := 181

  const INT_MAX := 0x7fff_ffff

  lemma BinnedBounded(src: Frame, rows: nat, cols: nat, factor: nat, y: nat, x: nat)
    requires src.Valid() && Blocks(src.px, rows, cols, factor) && y < rows && x < cols
    ensures 0 <= Binned(src.px, rows, cols, factor)[y][x] <= Mul(factor, Mul(factor, 65535))
  {
    MulOne(factor);
    BlockWithin(src.px, rows, cols, factor, y, x, 1, 1);
    BlockBounded(src.px, Mul(y, factor), Mul(x, factor), factor, factor, 65535);
  }

  predicate FitsInt(src: Frame, rows: nat, cols: nat, factor: nat)
    requires Blocks(src.px, rows, cols, factor)
  {
    forall y, x :: 0 <= y < rows && 0 <= x < cols ==> 0 <= Binned(src.px, rows, cols, factor)[y][x] <= INT_MAX
  }

  function White(factor: nat): (g: Grid)
    ensures Shaped(g, factor, factor)
  {
    seq(factor, _ => seq(factor, _ => 65535))
  }

  lemma {:induction false} WhiteRow(row: seq<int>, n: nat)
    requires n <= |row| && forall i :: 0 <= i < |row| ==> row[i] == 65535
    ensures RowSum(row, 0, n) == Mul(n, 65535)
    decreases n
  {
    MulOne(65535);
    if n > 0 {
      WhiteRow(row, n - 1);
      MulMore(n - 1, 65535);
    }
  }

  lemma {:induction false} WhiteBlock(factor: nat, h: nat)
    requires h <= factor
    ensures BlockSum(White(factor), 0, 0, h, factor) == Mul(h, Mul(factor, 65535))
    decreases h
  {
    MulOne(Mul(factor, 65535));
    if h > 0 {
      WhiteBlock(factor, h - 1);
      WhiteRow(White(factor)[h - 1], factor);
      MulMore(h - 1, Mul(factor, 65535));
    }
  }

  lemma SquareBound(factor: nat)
    ensures Mul(factor, Mul(factor, 65535)) <= INT_MAX <==> factor <= MAX_FACTOR
  {
    assert Mul(181, Mul(181, 65535)) <= INT_MAX < Mul(182, Mul(182, 65535));
    if factor <= MAX_FACTOR {
      MulOrder(factor, 65535, 181, 65535);
      MulOrder(factor, Mul(factor, 65535), 181, Mul(181, 65535));
    } else {
      MulOrder(182, 65535, factor, 65535);
      MulOrder(182, Mul(182, 65535), factor, Mul(factor, 65535));
    }
    hide Mul;
  }

  /** No frame of 16 bit pixels overflows the int that holds a sum if and only if the factor is at most 181. */
  lemma SumsFitIntIff(factor: nat)
    ensures (forall src: Frame, rows: nat, cols: nat :: src.Valid() && Blocks(src.px, rows, cols, factor) ==>
               FitsInt(src, rows, cols, factor))
            <==> factor <= MAX_FACTOR
  {
    SquareBound(factor);
    if factor <= MAX_FACTOR {
      forall src: Frame, rows: nat, cols: nat | src.Valid() && Blocks(src.px, rows, cols, factor)
        ensures FitsInt(src, rows, cols, factor)
      {
        forall y, x | 0 <= y < rows && 0 <= x < cols ensures 0 <= Binned(src.px, rows, cols, factor)[y][x] <= INT_MAX {
          BinnedBounded(src, rows, cols, factor, y, x);
        }
      }
    } else {
      var white := Frame(1, factor, factor, White(factor));
      MulOne(factor);
      WhiteBlock(factor, factor);
      assert Binned(white.px, 1, 1, factor)[0][0] > INT_MAX;
      assert !FitsInt(white, 1, 1, factor);
    }
  }

  /** With the factors that the configuration allows, no sum exceeds 16 white pixels. */
  lemma AllowedSums(src: Frame, rows: nat, cols: nat, factor: nat, y: nat, x: nat)
    requires src.Valid() && IsValidBinningFactor(factor) && Blocks(src.px, rows, cols, factor) && y < rows && x < cols
    ensures 0 <= Binned(src.px, rows, cols, factor)[y][x] <= 16 * 65535
  {
    BinnedBounded(src, rows, cols, factor, y, x);
    assert Mul(1, Mul(1, 65535)) == 65535 && Mul(2, Mul(2, 65535)) == 4 * 65535 && Mul(4, Mul(4, 65535)) == 16 * 65535;
  }

  // ----- the loops

  function Snapshot(a: array2<int>): (g: Grid)
    reads a
    ensures Shaped(g, a.Length0, a.Length1)
    ensures forall y, x :: 0 <= y < a.Length0 && 0 <= x < a.Length1 ==> g[y][x] == a[y, x]
  {
    seq(a.Length0, y requires 0 <= y < a.Length0 reads a => seq(a.Length1, x requires 0 <= x < a.Length1 reads a => a[y, x]))
  }

  method SumBlock(px: Grid, inY: nat, inX: nat, factor: nat) returns (sumValue: int)
    requires Within(px, inY, inX, factor, factor)
    ensures sumValue == BlockSum(px, inY, inX, factor, factor)
  {
    sumValue := 0;
    for dy := 0 to factor
      invariant sumValue == BlockSum(px, inY, inX, dy, factor)
    {
      for dx := 0 to factor
        invariant sumValue == BlockSum(px, inY, inX, dy, factor) + RowSum(px[inY + dy], inX, dx)
      {
        sumValue := sumValue + px[inY + dy][inX + dx];
      }
    }
  }

  predicate Divisible(src: Frame, factor: nat) {
    factor > 0 && src.rows % factor == 0 && src.cols % factor == 0
  }

  lemma DivisibleSplits(src: Frame, factor: nat)
    requires src.Valid() && Divisible(src, factor)
    ensures Blocks(src.px, src.rows / factor, src.cols / factor, factor)
  {
    DivMod(src.rows, factor);
    DivMod(src.cols, factor);
    MulAssoc(factor, src.rows / factor, 1);
    MulAssoc(factor, src.cols / factor, 1);
  }

  method ApplySumBinning(src: Frame, factor: int) returns (r: Result)
    requires src.Valid() && 0 < factor <= MAX_FACTOR
    ensures Divisible(src, factor) ==> Blocks(src.px, src.rows / factor, src.cols / factor, factor)
    ensures r ==
            if factor == 1 then Done(src)
            else if src.rows == 0 || src.cols == 0 then EmptyFrame
            else if src.channels != 1 then NotSingleChannel
            else if !Divisible(src, factor) then NotDivisible
            else Done(Frame(1, src.rows / factor, src.cols / factor,
                            Binned(src.px, src.rows / factor, src.cols / factor, factor)))
  {
    if Divisible(src, factor) {
      DivisibleSplits(src, factor);
    }
    if factor == 1 {
      return Done(src);
    }
    if src.rows == 0 || src.cols == 0 {
      return EmptyFrame;
    }
    if src.channels != 1 {
      return NotSingleChannel;
    }
    if src.cols % factor != 0 || src.rows % factor != 0 {
      return NotDivisible;
    }
    var outWidth, outHeight := src.cols / factor, src.rows / factor;
    var px := BinPixels(src.px, outHeight, outWidth, factor);
    r := Done(Frame(1, outHeight, outWidth, px));
  }

  method BinPixels(src: Grid, outHeight: nat, outWidth: nat, factor: nat) returns (px: Grid)
    requires Blocks(src, outHeight, outWidth, factor)
    ensures px == Binned(src, outHeight, outWidth, factor)
  {
    hide Mul, BlockSum, Blocks;
    var binned := new int[outHeight, outWidth]((_, _) => 0);
    ghost var whole := Binned(src, outHeight, outWidth, factor);
    for outY := 0 to outHeight
      invariant forall y, x :: 0 <= y < outY && 0 <= x < outWidth ==> binned[y, x] == whole[y][x]
    {
      var inY := Mul(outY, factor);
      for outX := 0 to outWidth
        invariant forall y, x :: 0 <= y < outY && 0 <= x < outWidth ==> binned[y, x] == whole[y][x]
        invariant forall x :: 0 <= x < outX ==> binned[outY, x] == whole[outY][x]
      {
        var inX := Mul(outX, factor);
        MulOne(factor);
        BlockWithin(src, outHeight, outWidth, factor, outY, outX, 1, 1);
        var sumValue := SumBlock(src, inY, inX, factor);
        binned[outY, outX] := sumValue;
      }
    }
    px := Snapshot(binned);
    SameGrid(px, whole, outHeight, outWidth);
  }
}
