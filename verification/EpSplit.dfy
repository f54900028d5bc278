// Balanced integer splitting of traffic matrices for the cross-EP projection.
module EpSplit {
  import opened IntSums

  type Grid = seq<seq<int>>

  predicate Rect(m: Grid, rows: nat, cols: nat) {
    |m| == rows && forall i | 0 <= i < rows :: |m[i]| == cols
  }

  // ------------------------------------------------------------------ one count

  // The first r positions counted from the rotation get one more than q.
  function Step(parts: nat, rotation: int, r: nat, i: nat): int
    requires parts > 0
  {
    if (i - rotation) % parts < r then 1 else 0
  }

  function Ladder(q: int, parts: nat, rotation: int, r: nat): seq<int>
    requires parts > 0
  {
    seq(parts, i requires 0 <= i => q + Step(parts, rotation, r, i))
  }

  /** count cut into parts that differ by at most one, the larger ones starting at the rotation. */
  function Split(count: int, parts: nat, rotation: int): (pieces: seq<int>)
    requires parts > 0
    ensures |pieces| == parts
  {
    Ladder(count / parts, parts, rotation, count % parts)
  }

  lemma RotatedPosition(parts: nat, rotation: int, index: nat, i: nat)
    requires index < parts && i < parts
    ensures i == (rotation + index) % parts <==> (i - rotation) % parts == index
  {
    if (i - rotation) % parts == index {
      var k := (i - rotation) / parts;
      assert parts * (-k) == -(parts * k);
      DivUnique(rotation + index, parts, -k, i);
    }
    if i == (rotation + index) % parts {
      var k := (rotation + index) / parts;
      assert parts * (-k) == -(parts * k);
      DivUnique(i - rotation, parts, -k, index);
    }
  }

  method SplitCount(count: int, parts: nat, rotation: int) returns (out: array<int>)
    requires parts > 0
    ensures fresh(out) && out[..] == Split(count, parts, rotation)
  {
    var q, r := count / parts, count % parts;
    out := new int[parts](_ => q);
    for index := 0 to r
      invariant forall i | 0 <= i < parts :: out[i] == q + Step(parts, rotation, index, i)
    {
      forall i: nat | i < parts
        ensures Step(parts, rotation, index + 1, i) ==
                Step(parts, rotation, index, i) + (if i == (rotation + index) % parts then 1 else 0)
      {
        RotatedPosition(parts, rotation, index, i);
      }
      out[(rotation + index) % parts] := out[(rotation + index) % parts] + 1;
    }
  }

  lemma {:induction false} LadderSum(q: int, parts: nat, rotation: int, r: nat)
    requires parts > 0 && r <= parts
    ensures Sum(Ladder(q, parts, rotation, r)) == q * parts + r
  {
    var ladder := Ladder(q, parts, rotation, r);
    if r == 0 {
      SumConstant(ladder, q, parts);
    } else {
      var below := Ladder(q, parts, rotation, r - 1);
      var p := (rotation + (r - 1)) % parts;
      LadderSum(q, parts, rotation, r - 1);
      forall i | 0 <= i < parts
        ensures ladder[i] == below[p := below[p] + 1][i]
      {
        RotatedPosition(parts, rotation, r - 1, i);
      }
      assert ladder == below[p := below[p] + 1];
      SumUpdate(below, p, below[p] + 1, parts);
    }
  }

  /** Splitting loses nothing and keeps the parts within one of each other. */
  lemma SplitConserves(count: int, parts: nat, rotation: int)
    requires parts > 0
    ensures Sum(Split(count, parts, rotation)) == count
    ensures Balanced(Split(count, parts, rotation), count / parts)
    ensures count % parts == 0 ==> forall i | 0 <= i < parts :: Split(count, parts, rotation)[i] == count / parts
  {
    LadderSum(count / parts, parts, rotation, count % parts);
  }

  lemma SuccDiv(x: int, g: int)
    requires g > 0
    ensures (x + 1) % g == 0 ==> (x + 1) / g == x / g + 1
    ensures (x + 1) % g != 0 ==> (x + 1) / g == x / g
  {
    if x % g + 1 < g {
      DivUnique(x + 1, g, x / g, x % g + 1);
    } else {
      assert g * (x / g + 1) == g * (x / g) + g;
      DivUnique(x + 1, g, x / g + 1, 0);
    }
  }

  /** A piece of a piece is still within one of the floor of the whole split. */
  lemma NestedPiece(count: int, f: nat, g: nat, rot: int, rot': int, i: nat, j: nat)
    requires f > 0 && g > 0 && i < f && j < g
    ensures f * g > 0
    ensures var x := Split(Split(count, f, rot)[i], g, rot')[j];
            x == count / (f * g) || x == count / (f * g) + 1
  {
    DivDiv(count, f, g);
    SplitConserves(count, f, rot);
    var piece := Split(count, f, rot)[i];
    SplitConserves(piece, g, rot');
    SuccDiv(count / f, g);
  }

  // -------------------------------------------------------------- index arithmetic

  lemma ChildIndex(parent: nat, f: nat, child: nat)
    requires child < f
    ensures (parent * f + child) / f == parent && (parent * f + child) % f == child
  {
    assert parent * f == f * parent;
    DivUnique(parent * f + child, f, parent, child);
  }

  lemma ParentInRange(row: nat, rows: nat, f: nat)
    requires f > 0 && row < rows * f
    ensures row / f < rows
  {
    assert f * rows == rows * f;
    if rows <= row / f {
      MulMonotone(f, rows, row / f);
    }
  }

  lemma QuotientBound(k: nat, f: nat, g: nat)
    requires g > 0 && k < f * g
    ensures k / g < f
  {
    ParentInRange(k, f, g);
  }

  // Row p*(f*g) + k of a twice-split matrix comes from row p*f + k/g of the once-split one.
  lemma GrandchildIndex(p: nat, f: nat, g: nat, k: nat)
    requires f > 0 && g > 0 && k < f * g
    ensures k / g < f
    ensures (p * (f * g) + k) / g == p * f + k / g && (p * (f * g) + k) % g == k % g
    ensures (p * f + k / g) / f == p && (p * f + k / g) % f == k / g
  {
    QuotientBound(k, f, g);
    ChildIndex(p, f, k / g);
    assert p * (f * g) == g * (p * f);
    assert g * (p * f + k / g) == g * (p * f) + g * (k / g);
    DivUnique(p * (f * g) + k, g, p * f + k / g, k % g);
  }

  lemma ScaledRange(r: nat, c: nat, n: nat, f: nat)
    requires r + c <= n
    ensures r * f + c * f <= n * f
  {
    MulMonotone(f, r + c, n);
    assert f * (r + c) == r * f + c * f && f * n == n * f;
  }

  lemma ScaledStep(r: nat, c: nat, f: nat)
    requires c > 0
    ensures c * f == (c - 1) * f + f && (r + c - 1) * f == r * f + (c - 1) * f
  {
  }

  // --------------------------------------------------------------- source matrices

  type Rotation = (int, int) -> int

  /** Every cell split down its column among the children of its source rank. */
  function SplitRows(m: Grid, cols: nat, f: nat, rotation: Rotation): (out: Grid)
    requires Rect(m, |m|, cols) && f > 0
    ensures Rect(out, |m| * f, cols)
  {
    seq(|m| * f, row requires 0 <= row < |m| * f =>
      seq(cols, e requires 0 <= e < cols => RowPiece(m, cols, f, rotation, row, e)))
  }

  function RowPiece(m: Grid, cols: nat, f: nat, rotation: Rotation, row: nat, e: nat): int
    requires Rect(m, |m|, cols) && f > 0 && row < |m| * f && e < cols
  {
    ParentInRange(row, |m|, f);
    Split(m[row / f][e], f, rotation(row / f, e))[row % f]
  }

  function SourceRotation(salt: int, f: nat): Rotation
    requires f > 0
  {
    (src, expert) => (salt + src * 17 + expert * 31) % f
  }

  lemma ChildRow(m: Grid, cols: nat, f: nat, rotation: Rotation, src: nat, child: nat, e: nat)
    requires Rect(m, |m|, cols) && f > 0 && src < |m| && child < f && e < cols
    ensures src * f + child < |m| * f
    ensures SplitRows(m, cols, f, rotation)[src * f + child][e] == Split(m[src][e], f, rotation(src, e))[child]
  {
    MulMonotone(f, src + 1, |m|);
    assert f * (src + 1) == src * f + f && f * |m| == |m| * f;
    ChildIndex(src, f, child);
  }

  // Writes the pieces of one cell down the rows of its children.
  method FillChildren(out: array2<int>, base: nat, expert: nat, pieces: seq<int>)
    requires base + |pieces| <= out.Length0 && expert < out.Length1
    modifies out
    ensures forall row, e | 0 <= row < out.Length0 && 0 <= e < out.Length1 ::
              out[row, e] == if e == expert && base <= row < base + |pieces| then pieces[row - base]
                  else old(out[row, e])
  {
    for child := 0 to |pieces|
      invariant forall row, e | 0 <= row < out.Length0 && 0 <= e < out.Length1 ::
                  out[row, e] == if e == expert && base <= row < base + child then pieces[row - base]
                      else old(out[row, e])
    {
      out[base + child, expert] := pieces[child];
    }
  }

  lemma CellChildren(m: Grid, cols: nat, f: nat, rotation: Rotation, src: nat, e: nat)
    requires Rect(m, |m|, cols) && f > 0 && src < |m| && e < cols
    ensures src * f + f <= |m| * f
    ensures forall row | src * f <= row < src * f + f ::
              SplitRows(m, cols, f, rotation)[row][e] == Split(m[src][e], f, rotation(src, e))[row - src * f]
  {
    ScaledRange(src, 1, |m|, f);
    forall row | src * f <= row < src * f + f
      ensures SplitRows(m, cols, f, rotation)[row][e] == Split(m[src][e], f, rotation(src, e))[row - src * f]
    {
      ChildRow(m, cols, f, rotation, src, row - src * f, e);
    }
  }

  // Splits one source rank's row over the rows of its children.
  method SplitRank(out: array2<int>, m: Grid, cols: nat, f: nat, salt: int, src: nat)
    requires Rect(m, |m|, cols) && f > 0 && src < |m| && out.Length0 == |m| * f && out.Length1 == cols
    modifies out
    ensures src * f + f <= |m| * f
    ensures forall row, e | 0 <= row < out.Length0 && 0 <= e < cols ::
              out[row, e] == if src * f <= row < src * f + f
                  then SplitRows(m, cols, f, SourceRotation(salt, f))[row][e] else old(out[row, e])
  {
    ghost var goal := SplitRows(m, cols, f, SourceRotation(salt, f));
    var base := src * f;
    ScaledRange(src, 1, |m|, f);
    for expert := 0 to cols
      invariant forall row, e | 0 <= row < out.Length0 && 0 <= e < cols ::
                  out[row, e] == if e < expert && base <= row < base + f then goal[row][e] else old(out[row, e])
    {
      var pieces := SplitCount(m[src][expert], f, (salt + src * 17 + expert * 31) % f);
      CellChildren(m, cols, f, SourceRotation(salt, f), src, expert);
      FillChildren(out, base, expert, pieces[..]);
    }
  }

  method SplitSourceMatrix(m: Grid, cols: nat, f: nat, salt: int) returns (out: array2<int>)
    requires Rect(m, |m|, cols) && f > 0
    ensures fresh(out) && out.Length0 == |m| * f && out.Length1 == cols
    ensures forall row, e | 0 <= row < |m| * f && 0 <= e < cols ::
            out[row, e] == SplitRows(m, cols, f, SourceRotation(salt, f))[row][e]
  {
    out := new int[|m| * f, cols]((_, _) => 0);
    for src := 0 to |m|
      invariant forall row, e | 0 <= row < src * f && row < out.Length0 && 0 <= e < cols ::
                  out[row, e] == SplitRows(m, cols, f, SourceRotation(salt, f))[row][e]
    {
      SplitRank(out, m, cols, f, salt, src);
      ScaledStep(0, src + 1, f);
    }
  }

  function ColSum(m: Grid, r0: nat, h: nat, e: nat): int
    requires r0 + h <= |m| && forall i | 0 <= i < |m| :: e < |m[i]|
  {
    if h == 0 then 0 else ColSum(m, r0, h - 1, e) + m[r0 + h - 1][e]
  }

  function Column(m: Grid, r0: nat, h: nat, e: nat): seq<int>
    requires r0 + h <= |m| && forall i | 0 <= i < |m| :: e < |m[i]|
  {
    seq(h, k requires 0 <= k < h => m[r0 + k][e])
  }

  lemma {:induction false} ColumnSum(m: Grid, r0: nat, h: nat, e: nat, k: nat)
    requires k <= h && r0 + h <= |m| && forall i | 0 <= i < |m| :: e < |m[i]|
    ensures SumUpTo(Column(m, r0, h, e), k) == ColSum(m, r0, k, e)
  {
    if k > 0 { ColumnSum(m, r0, h, e, k - 1); }
  }

  lemma {:induction false} ColSumSplit(m: Grid, r0: nat, h: nat, h': nat, e: nat)
    requires r0 + h + h' <= |m| && forall i | 0 <= i < |m| :: e < |m[i]|
    ensures ColSum(m, r0, h + h', e) == ColSum(m, r0, h, e) + ColSum(m, r0 + h, h', e)
  {
    if h' > 0 { ColSumSplit(m, r0, h, h' - 1, e); }
  }

  lemma {:induction false} ChildrenSum(m: Grid, cols: nat, f: nat, rotation: Rotation, src: nat, e: nat, h: nat)
    requires Rect(m, |m|, cols) && f > 0 && src < |m| && e < cols && h <= f
    ensures src * f + f <= |m| * f
    ensures ColSum(SplitRows(m, cols, f, rotation), src * f, h, e) == SumUpTo(Split(m[src][e], f, rotation(src, e)), h)
  {
    hide Split;
    MulMonotone(f, src + 1, |m|);
    assert f * (src + 1) == src * f + f && f * |m| == |m| * f;
    if h > 0 {
      ChildrenSum(m, cols, f, rotation, src, e, h - 1);
      ChildRow(m, cols, f, rotation, src, h - 1, e);
    }
  }

  lemma WholeCell(m: Grid, cols: nat, f: nat, rotation: Rotation, src: nat, e: nat)
    requires Rect(m, |m|, cols) && f > 0 && src < |m| && e < cols
    ensures src * f + f <= |m| * f
    ensures ColSum(SplitRows(m, cols, f, rotation), src * f, f, e) == m[src][e]
  {
    ChildrenSum(m, cols, f, rotation, src, e, f);
    SplitConserves(m[src][e], f, rotation(src, e));
  }

  // The rows of out under a source rank add up to that rank's cell.
  predicate CellKept(m: Grid, out: Grid, f: nat, e: nat, src: nat)
    requires src < |m| && e < |m[src]| && forall i | 0 <= i < |out| :: e < |out[i]|
  {
    src * f + f <= |out| && ColSum(out, src * f, f, e) == m[src][e]
  }

  lemma {:induction false} StretchKept(m: Grid, out: Grid, f: nat, e: nat, r: nat, c: nat, base: nat, len: nat)
    requires r + c <= |m| && (forall i | 0 <= i < |m| :: e < |m[i]|) && (forall i | 0 <= i < |out| :: e < |out[i]|)
    requires forall src: nat | src < |m| :: CellKept(m, out, f, e, src)
    requires base == r * f && len == c * f && base + len <= |out|
    ensures ColSum(out, base, len, e) == ColSum(m, r, c, e)
  {
    if c > 0 {
      ScaledStep(r, c, f);
      StretchKept(m, out, f, e, r, c - 1, base, len - f);
      assert CellKept(m, out, f, e, r + c - 1);
      ColSumSplit(out, base, len - f, f, e);
    }
  }

  /** Splitting keeps the total of every stretch of a column. */
  lemma SplitKeepsColumns(m: Grid, cols: nat, f: nat, rotation: Rotation, r: nat, c: nat, e: nat, base: nat, len: nat)
    requires Rect(m, |m|, cols) && f > 0 && r + c <= |m| && e < cols
    requires base == r * f && len == c * f
    ensures base + len <= |m| * f
    ensures ColSum(SplitRows(m, cols, f, rotation), base, len, e) == ColSum(m, r, c, e)
  {
    var out := SplitRows(m, cols, f, rotation);
    forall src: nat | src < |m|
      ensures CellKept(m, out, f, e, src)
    {
      WholeCell(m, cols, f, rotation, src, e);
    }
    ScaledRange(r, c, |m|, f);
    StretchKept(m, out, f, e, r, c, base, len);
  }

  lemma TwiceSplitEntry(m: Grid, cols: nat, f: nat, g: nat, rotation: Rotation, rotation': Rotation, p: nat, k: nat,
                        e: nat)
    requires Rect(m, |m|, cols) && f > 0 && g > 0 && p < |m| && k < f * g && e < cols
    ensures p * (f * g) + k < |m| * f * g
    ensures var x := SplitRows(SplitRows(m, cols, f, rotation), cols, g, rotation')[p * (f * g) + k][e];
            x == m[p][e] / (f * g) || x == m[p][e] / (f * g) + 1
  {
    var once := SplitRows(m, cols, f, rotation);
    GrandchildIndex(p, f, g, k);
    ChildRow(m, cols, f, rotation, p, k / g, e);
    ChildRow(once, cols, g, rotation', p * f + k / g, k % g, e);
    assert (p * f + k / g) * g + k % g == p * (f * g) + k by { Regroup(p, f, g, k); }
    NestedPiece(m[p][e], f, g, rotation(p, e), rotation'(p * f + k / g, e), k / g, k % g);
  }

  lemma Regroup(p: nat, f: nat, g: nat, k: nat)
    requires g > 0
    ensures (p * f + k / g) * g + k % g == p * (f * g) + k
  {
    assert (p * f + k / g) * g == p * f * g + (k / g) * g;
    assert p * f * g == p * (f * g);
  }

  /** Splitting by f and then by g leaves under every source rank the same pieces as splitting
      by f * g at once, whatever the rotations. */
  lemma SplitRowsCompose(m: Grid, cols: nat, f: nat, g: nat, rotation: Rotation, rotation': Rotation,
                         direct: Rotation, p: nat, e: nat)
    requires Rect(m, |m|, cols) && f > 0 && g > 0 && p < |m| && e < cols
    ensures f * g > 0 && p * (f * g) + f * g <= |m| * f * g == |m| * (f * g)
    ensures multiset(Column(SplitRows(SplitRows(m, cols, f, rotation), cols, g, rotation'), p * (f * g), f * g, e)) ==
            multiset(Column(SplitRows(m, cols, f * g, direct), p * (f * g), f * g, e))
  {
    DivDiv(m[p][e], f, g);
    ScaledRange(p, 1, |m|, f * g);
    assert |m| * f * g == |m| * (f * g);
    var twice := SplitRows(SplitRows(m, cols, f, rotation), cols, g, rotation');
    var once := SplitRows(m, cols, f * g, direct);
    var a, b := Column(twice, p * (f * g), f * g, e), Column(once, p * (f * g), f * g, e);
    forall k | 0 <= k < f * g
      ensures a[k] == m[p][e] / (f * g) || a[k] == m[p][e] / (f * g) + 1
      ensures b[k] == m[p][e] / (f * g) || b[k] == m[p][e] / (f * g) + 1
    {
      TwiceSplitEntry(m, cols, f, g, rotation, rotation', p, k, e);
      ChildRow(m, cols, f * g, direct, p, k, e);
      SplitConserves(m[p][e], f * g, direct(p, e));
    }
    Associate(p, f, g);
    TwiceSplitSum(m, cols, f, g, rotation, rotation', p, e, p * (f * g), f * g);
    WholeCell(m, cols, f * g, direct, p, e);
    ColumnSum(twice, p * (f * g), f * g, e, f * g);
    ColumnSum(once, p * (f * g), f * g, e, f * g);
    BalancedUnique(a, b, m[p][e] / (f * g));
  }

  lemma Associate(p: nat, f: nat, g: nat)
    ensures p * f * g == p * (f * g)
  {
  }

  lemma TwiceSplitSum(m: Grid, cols: nat, f: nat, g: nat, rotation: Rotation, rotation': Rotation, p: nat, e: nat,
                      base: nat, len: nat)
    requires Rect(m, |m|, cols) && f > 0 && g > 0 && p < |m| && e < cols
    requires base == p * f * g && len == f * g
    ensures base + len <= |m| * f * g
    ensures ColSum(SplitRows(SplitRows(m, cols, f, rotation), cols, g, rotation'), base, len, e) == m[p][e]
  {
    WholeCell(m, cols, f, rotation, p, e);
    SplitKeepsColumns(SplitRows(m, cols, f, rotation), cols, g, rotation', p * f, f, e, base, len);
  }
}
