// Balanced splitting of square rank-to-rank matrices into blocks.
module EpSquare {
  import opened IntSums
  import opened EpSplit

  /** Every cell cut into an f by f block of balanced pieces, row by row. */
  function SplitBlocks(m: Grid, f: nat, rotation: Rotation): (out: Grid)
    requires Rect(m, |m|, |m|) && f > 0
    ensures Rect(out, |m| * f, |m| * f)
  {
    seq(|m| * f, r requires 0 <= r < |m| * f =>
      seq(|m| * f, c requires 0 <= c < |m| * f => BlockPiece(m, f, rotation, r, c)))
  }

  function BlockPiece(m: Grid, f: nat, rotation: Rotation, r: nat, c: nat): int
    requires Rect(m, |m|, |m|) && f > 0 && r < |m| * f && c < |m| * f
  {
    ParentInRange(r, |m|, f);
    ParentInRange(c, |m|, f);
    CellPiece(m[r / f][c / f], f, rotation(r / f, c / f), r % f, c % f)
  }

  function CellPiece(count: int, f: nat, rotation: int, i: nat, j: nat): int
    requires i < f && j < f
  {
    PlaceInBlock(f, i, j);
    Split(count, f * f, rotation)[i * f + j]
  }

  lemma PlaceInBlock(f: nat, i: nat, j: nat)
    requires i < f && j < f
    ensures f * f > 0 && i * f + j < f * f
    ensures (i * f + j) / f == i && (i * f + j) % f == j
  {
    ChildIndex(i, f, j);
    ScaledRange(i, 1, f, f);
  }

  lemma BlockEntry(m: Grid, f: nat, rotation: Rotation, src: nat, dst: nat, i: nat, j: nat)
    requires Rect(m, |m|, |m|) && f > 0 && src < |m| && dst < |m| && i < f && j < f
    ensures src * f + i < |m| * f && dst * f + j < |m| * f
    ensures SplitBlocks(m, f, rotation)[src * f + i][dst * f + j] == CellPiece(m[src][dst], f, rotation(src, dst), i, j)
  {
    ScaledRange(src, 1, |m|, f);
    ScaledRange(dst, 1, |m|, f);
    ChildIndex(src, f, i);
    ChildIndex(dst, f, j);
  }

  // -------------------------------------------------------------------- the loops

  // The pieces as the rows of an f by f block.
  function Shape(pieces: seq<int>, f: nat): (rows: Grid)
    requires |pieces| == f * f
    ensures Rect(rows, f, f)
  {
    seq(f, i requires 0 <= i < f =>
      seq(f, j requires 0 <= j < f => (PlaceInBlock(f, i, j); pieces[i * f + j])))
  }

  predicate InBlock(r: int, c: int, r0: int, c0: int, f: int) {
    r0 <= r < r0 + f && c0 <= c < c0 + f
  }

  // Whether entry (i, j) comes before (x, y) when the block is read row by row.
  predicate Before(i: int, j: int, x: int, y: int) {
    i < x || (i == x && j < y)
  }

  lemma NextPlace(f: nat, index: nat)
    requires index < f * f
    ensures f > 0 && index / f < f && (index / f) * f + index % f == index
    ensures var x, y := (index + 1) / f, (index + 1) % f;
            if index % f + 1 < f then x == index / f && y == index % f + 1 else x == index / f + 1 && y == 0
  {
    QuotientBound(index, f, f);
    var x, y := index / f, index % f;
    if y + 1 < f {
      DivUnique(index + 1, f, x, y + 1);
    } else {
      assert f * (x + 1) == f * x + f;
      DivUnique(index + 1, f, x + 1, 0);
    }
  }

  // An entry at offset (r, c) from the block: filled in up to place (x, y), as before elsewhere.
  predicate Filled(entry: int, before: int, shape: Grid, f: nat, r: int, c: int, x: int, y: int)
    requires Rect(shape, f, f)
  {
    entry == if 0 <= r < f && 0 <= c < f && Before(r, c, x, y) then shape[r][c] else before
  }

  // Writes the pieces of one cell into its block.
  method FillBlock(out: array2<int>, r0: nat, c0: nat, f: nat, pieces: seq<int>)
    requires f > 0 && |pieces| == f * f && r0 + f <= out.Length0 && c0 + f <= out.Length1
    modifies out
    ensures forall r, c | 0 <= r < out.Length0 && 0 <= c < out.Length1 ::
              out[r, c] == if InBlock(r, c, r0, c0, f) then Shape(pieces, f)[r - r0][c - c0] else old(out[r, c])
  {
    ghost var shape := Shape(pieces, f);
    ghost var x, y := 0, 0;
    DivUnique(0, f, 0, 0);
    for index := 0 to |pieces|
      invariant x == index / f && y == index % f
      invariant forall r, c | 0 <= r < out.Length0 && 0 <= c < out.Length1 ::
                  Filled(out[r, c], old(out[r, c]), shape, f, r - r0, c - c0, x, y)
    {
      NextPlace(f, index);
      assert shape[x][y] == pieces[index];
      var srcChild, dstChild := index / f, index % f;
      out[r0 + srcChild, c0 + dstChild] := pieces[index];
      x, y := if y + 1 < f then x else x + 1, if y + 1 < f then y + 1 else 0;
    }
    DivUnique(f * f, f, f, 0);
  }

  function SquareRotation(salt: int, f: nat): Rotation
    requires f > 0
    ensures f * f > 0
  {
    (src, dst) => if f * f > 0 then (salt + src * 19 + dst * 37) % (f * f) else 0
  }

  lemma CellShape(m: Grid, f: nat, rotation: Rotation, src: nat, dst: nat, r: nat, c: nat)
    requires Rect(m, |m|, |m|) && f > 0 && src < |m| && dst < |m| && InBlock(r, c, src * f, dst * f, f)
    ensures r < |m| * f && c < |m| * f && f * f > 0
    ensures SplitBlocks(m, f, rotation)[r][c] ==
            Shape(Split(m[src][dst], f * f, rotation(src, dst)), f)[r - src * f][c - dst * f]
  {
    BlockEntry(m, f, rotation, src, dst, r - src * f, c - dst * f);
    PlaceInBlock(f, 0, 0);
  }

  // Splits one cell of the matrix into its block of out.
  method SplitCell(out: array2<int>, m: Grid, f: nat, salt: int, src: nat, dst: nat)
    requires Rect(m, |m|, |m|) && f > 0 && src < |m| && dst < |m| && out.Length0 == |m| * f && out.Length1 == |m| * f
    modifies out
    ensures forall r, c | 0 <= r < out.Length0 && 0 <= c < out.Length1 ::
              out[r, c] == if InBlock(r, c, src * f, dst * f, f) then SplitBlocks(m, f, SquareRotation(salt, f))[r][c]
                  else old(out[r, c])
  {
    ScaledRange(src, 1, |m|, f);
    ScaledRange(dst, 1, |m|, f);
    var block := f * f;
    var pieces := SplitCount(m[src][dst], block, (salt + src * 19 + dst * 37) % block);
    FillBlock(out, src * f, dst * f, f, pieces[..]);
    ghost var goal := SplitBlocks(m, f, SquareRotation(salt, f));
    forall r: nat, c: nat | InBlock(r, c, src * f, dst * f, f)
      ensures r < |m| * f && c < |m| * f && goal[r][c] == out[r, c]
    {
      CellShape(m, f, SquareRotation(salt, f), src, dst, r, c);
    }
  }

  method SplitSquareMatrix(m: Grid, f: nat, salt: int) returns (out: array2<int>)
    requires Rect(m, |m|, |m|) && f > 0
    ensures fresh(out) && out.Length0 == |m| * f && out.Length1 == |m| * f
    ensures forall r, c | 0 <= r < |m| * f && 0 <= c < |m| * f ::
            out[r, c] == SplitBlocks(m, f, SquareRotation(salt, f))[r][c]
  {
    var n := |m| * f;
    ghost var goal := SplitBlocks(m, f, SquareRotation(salt, f));
    out := new int[n, n]((_, _) => 0);
    for src := 0 to |m|
      invariant forall r, c | 0 <= r < src * f && r < n && 0 <= c < n :: out[r, c] == goal[r][c]
    {
      ghost var top := src * f;
      for dst := 0 to |m|
        invariant forall r, c | 0 <= r < top && r < n && 0 <= c < n :: out[r, c] == goal[r][c]
        invariant forall r, c | top <= r < top + f && r < n && 0 <= c < dst * f && c < n :: out[r, c] == goal[r][c]
      {
        SplitCell(out, m, f, salt, src, dst);
        ScaledStep(0, dst + 1, f);
      }
      ScaledStep(0, src + 1, f);
    }
  }

  // ------------------------------------------------------------- blocks and their sums

  // The h by w block at (r0, c0), row after row.
  function Block(m: Grid, r0: nat, h: nat, c0: nat, w: nat): seq<int>
    requires r0 + h <= |m| && forall i | 0 <= i < |m| :: c0 + w <= |m[i]|
  {
    if h == 0 then [] else Block(m, r0, h - 1, c0, w) + m[r0 + h - 1][c0..c0 + w]
  }

  lemma {:induction false} BlockLength(m: Grid, r0: nat, h: nat, c0: nat, w: nat)
    requires r0 + h <= |m| && forall i | 0 <= i < |m| :: c0 + w <= |m[i]|
    ensures |Block(m, r0, h, c0, w)| == h * w
  {
    if h > 0 { BlockLength(m, r0, h - 1, c0, w); }
  }

  predicate NearRow(row: seq<int>, c0: nat, w: nat, q: int)
    requires c0 + w <= |row|
  {
    forall c | c0 <= c < c0 + w :: row[c] == q || row[c] == q + 1
  }

  lemma {:induction false} BlockBalanced(m: Grid, r0: nat, h: nat, c0: nat, w: nat, q: int)
    requires r0 + h <= |m| && forall i | 0 <= i < |m| :: c0 + w <= |m[i]|
    requires forall r | r0 <= r < r0 + h :: NearRow(m[r], c0, w, q)
    ensures Balanced(Block(m, r0, h, c0, w), q)
  {
    if h > 0 {
      BlockBalanced(m, r0, h - 1, c0, w, q);
      assert NearRow(m[r0 + h - 1], c0, w, q);
    }
  }

  function RowRange(row: seq<int>, c0: nat, w: nat): int
    requires c0 + w <= |row|
  {
    if w == 0 then 0 else RowRange(row, c0, w - 1) + row[c0 + w - 1]
  }

  lemma {:induction false} RowRangeSum(row: seq<int>, c0: nat, w: nat, k: nat)
    requires c0 + w <= |row| && k <= w
    ensures SumUpTo(row[c0..c0 + w], k) == RowRange(row, c0, k)
  {
    if k > 0 { RowRangeSum(row, c0, w, k - 1); }
  }

  lemma {:induction false} RowRangeSplit(row: seq<int>, c0: nat, w: nat, w': nat)
    requires c0 + w + w' <= |row|
    ensures RowRange(row, c0, w + w') == RowRange(row, c0, w) + RowRange(row, c0 + w, w')
  {
    if w' > 0 { RowRangeSplit(row, c0, w, w' - 1); }
  }

  function BlockSum(m: Grid, r0: nat, h: nat, c0: nat, w: nat): int
    requires r0 + h <= |m| && forall i | 0 <= i < |m| :: c0 + w <= |m[i]|
  {
    if h == 0 then 0 else BlockSum(m, r0, h - 1, c0, w) + RowRange(m[r0 + h - 1], c0, w)
  }

  lemma {:induction false} BlockSumIsSum(m: Grid, r0: nat, h: nat, c0: nat, w: nat)
    requires r0 + h <= |m| && forall i | 0 <= i < |m| :: c0 + w <= |m[i]|
    ensures Sum(Block(m, r0, h, c0, w)) == BlockSum(m, r0, h, c0, w)
  {
    if h > 0 {
      BlockSumIsSum(m, r0, h - 1, c0, w);
      SumConcat(Block(m, r0, h - 1, c0, w), m[r0 + h - 1][c0..c0 + w]);
      RowRangeSum(m[r0 + h - 1], c0, w, w);
    }
  }

  lemma {:induction false} StackBlocks(m: Grid, r0: nat, h: nat, h': nat, c0: nat, w: nat)
    requires r0 + h + h' <= |m| && forall i | 0 <= i < |m| :: c0 + w <= |m[i]|
    ensures BlockSum(m, r0, h + h', c0, w) == BlockSum(m, r0, h, c0, w) + BlockSum(m, r0 + h, h', c0, w)
  {
    if h' > 0 { StackBlocks(m, r0, h, h' - 1, c0, w); }
  }

  lemma {:induction false} JoinBlocks(m: Grid, r0: nat, h: nat, c0: nat, w: nat, w': nat)
    requires r0 + h <= |m| && forall i | 0 <= i < |m| :: c0 + w + w' <= |m[i]|
    ensures BlockSum(m, r0, h, c0, w + w') == BlockSum(m, r0, h, c0, w) + BlockSum(m, r0, h, c0 + w, w')
  {
    if h > 0 {
      JoinBlocks(m, r0, h - 1, c0, w, w');
      RowRangeSplit(m[r0 + h - 1], c0, w, w');
    }
  }

  // ------------------------------------------------------------ one cell, one block

  // Stacking the rows of a block gives the pieces back.
  lemma {:induction false} RowsOfShape(out: Grid, r0: nat, c0: nat, f: nat, pieces: seq<int>, h: nat)
    requires |pieces| == f * f && h <= f && r0 + f <= |out| && forall i | 0 <= i < |out| :: c0 + f <= |out[i]|
    requires forall r | r0 <= r < r0 + f :: out[r][c0..c0 + f] == Shape(pieces, f)[r - r0]
    ensures h * f <= f * f && Block(out, r0, h, c0, f) == pieces[..h * f]
  {
    ScaledRange(h, 0, f, f);
    if h > 0 {
      RowsOfShape(out, r0, c0, f, pieces, h - 1);
      ScaledStep(0, h, f);
      RowOfShape(pieces, f, h - 1, (h - 1) * f);
      assert pieces[..(h - 1) * f] + pieces[(h - 1) * f..(h - 1) * f + f] == pieces[..(h - 1) * f + f];
    }
  }

  lemma RowOfShape(pieces: seq<int>, f: nat, i: nat, start: nat)
    requires |pieces| == f * f && i < f && start == i * f
    ensures start + f <= f * f && Shape(pieces, f)[i] == pieces[start..start + f]
  {
    ScaledRange(i, 1, f, f);
  }

  lemma CellRow(m: Grid, f: nat, rotation: Rotation, src: nat, dst: nat, r: nat)
    requires Rect(m, |m|, |m|) && f > 0 && src < |m| && dst < |m| && src * f <= r < src * f + f
    ensures r < |m| * f && dst * f + f <= |m| * f && 0 < f * f
    ensures SplitBlocks(m, f, rotation)[r][dst * f..dst * f + f] ==
            Shape(Split(m[src][dst], f * f, rotation(src, dst)), f)[r - src * f]
  {
    ScaledRange(dst, 1, |m|, f);
    CellShape(m, f, rotation, src, dst, r, dst * f);
    var left := dst * f;
    var out, row := SplitBlocks(m, f, rotation)[r],
        Shape(Split(m[src][dst], f * f, rotation(src, dst)), f)[r - src * f];
    forall c: nat | left <= c < left + f
      ensures out[c] == row[c - left]
    {
      CellShape(m, f, rotation, src, dst, r, c);
    }
    SliceIs(out, left, row);
  }

  lemma SliceIs(s: seq<int>, at: nat, t: seq<int>)
    requires at + |t| <= |s| && forall c: nat | at <= c < at + |t| :: s[c] == t[c - at]
    ensures s[at..at + |t|] == t
  {
    forall k | 0 <= k < |t|
      ensures s[at..at + |t|][k] == t[k]
    {
      assert s[at + k] == t[at + k - at];
    }
  }

  lemma CellBlock(m: Grid, f: nat, rotation: Rotation, src: nat, dst: nat, top: nat, left: nat)
    requires Rect(m, |m|, |m|) && f > 0 && src < |m| && dst < |m| && top == src * f && left == dst * f
    ensures top + f <= |m| * f && left + f <= |m| * f && 0 < f * f
    ensures Block(SplitBlocks(m, f, rotation), top, f, left, f) == Split(m[src][dst], f * f, rotation(src, dst))
  {
    ScaledRange(src, 1, |m|, f);
    ScaledRange(dst, 1, |m|, f);
    PlaceInBlock(f, 0, 0);
    var out, pieces := SplitBlocks(m, f, rotation), Split(m[src][dst], f * f, rotation(src, dst));
    forall r | top <= r < top + f
      ensures out[r][left..left + f] == Shape(pieces, f)[r - top]
    {
      CellRow(m, f, rotation, src, dst, r);
    }
    RowsOfShape(out, top, left, f, pieces, f);
    assert pieces[..f * f] == pieces;
  }

  /** The block of a cell holds exactly its balanced pieces, so the cell's count is conserved. */
  lemma WholeBlock(m: Grid, f: nat, rotation: Rotation, src: nat, dst: nat)
    requires Rect(m, |m|, |m|) && f > 0 && src < |m| && dst < |m|
    ensures src * f + f <= |m| * f && dst * f + f <= |m| * f && 0 < f * f
    ensures Block(SplitBlocks(m, f, rotation), src * f, f, dst * f, f) == Split(m[src][dst], f * f, rotation(src, dst))
    ensures BlockSum(SplitBlocks(m, f, rotation), src * f, f, dst * f, f) == m[src][dst]
  {
    CellBlock(m, f, rotation, src, dst, src * f, dst * f);
    SplitConserves(m[src][dst], f * f, rotation(src, dst));
    BlockSumIsSum(SplitBlocks(m, f, rotation), src * f, f, dst * f, f);
  }

  // --------------------------------------------------------- conservation of stretches

  predicate Wide(m: Grid, width: nat) {
    forall i | 0 <= i < |m| :: width <= |m[i]|
  }

  // The block of out under a cell adds up to the cell.
  predicate BlockKept(m: Grid, out: Grid, f: nat, src: nat, dst: nat)
    requires src < |m| && dst < |m[src]|
  {
    src * f + f <= |out| && Wide(out, dst * f + f) && BlockSum(out, src * f, f, dst * f, f) == m[src][dst]
  }

  // One row of cells, w of them from column c.
  lemma {:induction false} StripKept(m: Grid, out: Grid, f: nat, r: nat, c: nat, w: nat, top: nat, left: nat,
                                     width: nat)
    requires r < |m| && c + w <= |m[r]| && top == r * f && top + f <= |out|
    requires left == c * f && width == w * f && Wide(out, left + width)
    requires forall dst: nat | dst < |m[r]| :: BlockKept(m, out, f, r, dst)
    ensures BlockSum(out, top, f, left, width) == RowRange(m[r], c, w)
  {
    if w == 0 {
      EmptyBlock(out, top, f, left);
    } else {
      ScaledStep(c, w, f);
      StripKept(m, out, f, r, c, w - 1, top, left, width - f);
      assert BlockKept(m, out, f, r, c + w - 1);
      JoinBlocks(out, top, f, left, width - f, f);
    }
  }

  lemma {:induction false} EmptyBlock(m: Grid, r0: nat, h: nat, c0: nat)
    requires r0 + h <= |m| && Wide(m, c0)
    ensures BlockSum(m, r0, h, c0, 0) == 0
  {
    if h > 0 { EmptyBlock(m, r0, h - 1, c0); }
  }

  lemma {:induction false} AreaKept(m: Grid, out: Grid, f: nat, r: nat, h: nat, c: nat, w: nat, top: nat, height: nat,
                                    left: nat, width: nat)
    requires r + h <= |m| && Wide(m, c + w) && top == r * f && height == h * f && top + height <= |out|
    requires left == c * f && width == w * f && Wide(out, left + width)
    requires forall src: nat, dst: nat | src < |m| && dst < |m[src]| :: BlockKept(m, out, f, src, dst)
    ensures BlockSum(out, top, height, left, width) == BlockSum(m, r, h, c, w)
  {
    if h > 0 {
      ScaledStep(r, h, f);
      AreaKept(m, out, f, r, h - 1, c, w, top, height - f, left, width);
      StripKept(m, out, f, r + h - 1, c, w, top + (height - f), left, width);
      StackBlocks(out, top, height - f, f, left, width);
    }
  }

  /** Splitting keeps the total of every rectangle of cells. */
  lemma SplitKeepsBlocks(m: Grid, f: nat, rotation: Rotation, r: nat, h: nat, c: nat, w: nat, top: nat, height: nat,
                         left: nat, width: nat)
    requires Rect(m, |m|, |m|) && f > 0 && r + h <= |m| && c + w <= |m|
    requires top == r * f && height == h * f && left == c * f && width == w * f
    ensures top + height <= |m| * f && left + width <= |m| * f
    ensures BlockSum(SplitBlocks(m, f, rotation), top, height, left, width) == BlockSum(m, r, h, c, w)
  {
    var out := SplitBlocks(m, f, rotation);
    ScaledRange(r, h, |m|, f);
    ScaledRange(c, w, |m|, f);
    forall src: nat, dst: nat | src < |m| && dst < |m[src]|
      ensures BlockKept(m, out, f, src, dst)
    {
      WholeBlock(m, f, rotation, src, dst);
    }
    AreaKept(m, out, f, r, h, c, w, top, height, left, width);
  }

  // ------------------------------------------------------------------- composition

  lemma TwiceBlockEntry(m: Grid, f: nat, g: nat, rotation: Rotation, rotation': Rotation, src: nat, dst: nat, i: nat,
                        j: nat)
    requires Rect(m, |m|, |m|) && f > 0 && g > 0 && src < |m| && dst < |m| && i < f * g && j < f * g
    ensures f * f > 0 && g * g > 0 && f * f * (g * g) > 0
    ensures var twice, q := SplitBlocks(SplitBlocks(m, f, rotation), g, rotation'), m[src][dst] / (f * f * (g * g));
            var r, c := src * (f * g) + i, dst * (f * g) + j;
            r < |twice| && c < |twice[r]| && (twice[r][c] == q || twice[r][c] == q + 1)
  {
    hide SplitBlocks, CellPiece;
    var once := SplitBlocks(m, f, rotation);
    QuotientBound(i, f, g);
    QuotientBound(j, f, g);
    BlockEntry(m, f, rotation, src, dst, i / g, j / g);
    BlockEntry(once, g, rotation', src * f + i / g, dst * f + j / g, i % g, j % g);
    Regroup(src, f, g, i);
    Regroup(dst, f, g, j);
    NestedCellPiece(m[src][dst], f, g, rotation(src, dst), rotation'(src * f + i / g, dst * f + j / g), i / g, j / g,
        i % g, j % g);
  }

  lemma NestedCellPiece(count: int, f: nat, g: nat, rot: int, rot': int, i: nat, j: nat, i': nat, j': nat)
    requires i < f && j < f && i' < g && j' < g
    ensures f * f > 0 && g * g > 0 && f * f * (g * g) > 0
    ensures var x := CellPiece(CellPiece(count, f, rot, i, j), g, rot', i', j');
            x == count / (f * f * (g * g)) || x == count / (f * f * (g * g)) + 1
  {
    PlaceInBlock(f, i, j);
    PlaceInBlock(g, i', j');
    NestedPiece(count, f * f, g * g, rot, rot', i * f + j, i' * g + j');
  }

  lemma SquareOfProduct(f: nat, g: nat)
    ensures f * f * (g * g) == f * g * (f * g)
  {
    calc {
      f * f * (g * g);
      f * (f * (g * g));
      f * ((f * g) * g);
      f * (g * (f * g));
      f * g * (f * g);
    }
  }

  lemma TwiceBlockSum(m: Grid, f: nat, g: nat, rotation: Rotation, rotation': Rotation, src: nat, dst: nat, top: nat,
                      left: nat, len: nat)
    requires Rect(m, |m|, |m|) && f > 0 && g > 0 && src < |m| && dst < |m|
    requires top == src * f * g && left == dst * f * g && len == f * g
    ensures top + len <= |m| * f * g && left + len <= |m| * f * g
    ensures BlockSum(SplitBlocks(SplitBlocks(m, f, rotation), g, rotation'), top, len, left, len) == m[src][dst]
  {
    WholeBlock(m, f, rotation, src, dst);
    SplitKeepsBlocks(SplitBlocks(m, f, rotation), g, rotation', src * f, f, dst * f, f, top, len, left, len);
  }

  /** Splitting by f and then by g leaves under every cell the same pieces as splitting by f * g
      at once, whatever the rotations. */
  lemma SplitBlocksCompose(m: Grid, f: nat, g: nat, rotation: Rotation, rotation': Rotation, direct: Rotation,
                           src: nat, dst: nat, top: nat, left: nat, len: nat)
    requires Rect(m, |m|, |m|) && f > 0 && g > 0 && src < |m| && dst < |m|
    requires len == f * g && top == src * len && left == dst * len
    ensures len > 0 && |m| * f * g == |m| * len && top + len <= |m| * len && left + len <= |m| * len
    ensures multiset(Block(SplitBlocks(SplitBlocks(m, f, rotation), g, rotation'), top, len, left, len)) ==
            multiset(Block(SplitBlocks(m, len, direct), top, len, left, len))
  {
    DivDiv(0, f, g);
    Associate(|m|, f, g);
    Associate(src, f, g);
    Associate(dst, f, g);
    ScaledRange(src, 1, |m|, len);
    ScaledRange(dst, 1, |m|, len);
    PlaceInBlock(len, 0, 0);
    var q := m[src][dst] / (len * len);
    TwiceBlockSpread(m, f, g, rotation, rotation', src, dst, top, left, len);
    TwiceBlockSum(m, f, g, rotation, rotation', src, dst, top, left, len);
    WholeBlock(m, len, direct, src, dst);
    SplitConserves(m[src][dst], len * len, direct(src, dst));
    var twice := SplitBlocks(SplitBlocks(m, f, rotation), g, rotation');
    BlockSumIsSum(twice, top, len, left, len);
    BlockLength(twice, top, len, left, len);
    BalancedUnique(Block(twice, top, len, left, len), Block(SplitBlocks(m, len, direct), top, len, left, len), q);
  }

  lemma TwiceBlockSpread(m: Grid, f: nat, g: nat, rotation: Rotation, rotation': Rotation, src: nat, dst: nat,
                         top: nat, left: nat, len: nat)
    requires Rect(m, |m|, |m|) && f > 0 && g > 0 && src < |m| && dst < |m|
    requires len == f * g && top == src * len && left == dst * len && len * len > 0
    requires top + len <= |m| * f * g && left + len <= |m| * f * g
    ensures Balanced(Block(SplitBlocks(SplitBlocks(m, f, rotation), g, rotation'), top, len, left, len),
            m[src][dst] / (len * len))
  {
    SquareOfProduct(f, g);
    var twice := SplitBlocks(SplitBlocks(m, f, rotation), g, rotation');
    var q := m[src][dst] / (len * len);
    forall r: nat | top <= r < top + len
      ensures NearRow(twice[r], left, len, q)
    {
      forall c: nat | left <= c < left + len
        ensures twice[r][c] == q || twice[r][c] == q + 1
      {
        TwiceBlockEntry(m, f, g, rotation, rotation', src, dst, r - top, c - left);
      }
    }
    BlockBalanced(twice, top, len, left, len, q);
  }
}
