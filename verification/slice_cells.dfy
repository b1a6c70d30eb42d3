/** The fixed crop rectangles of the result screenshots: nine item cells for the Clash
    screen and nine for the Frontier screen, each a constant table. */
module SliceCells {

  /** A crop rectangle: `index` labels the cell, (x, y) is its top-left corner. */
  datatype Rect = Rect(index: int, x: int, y: int, w: int, h: int)

  /** A top-left corner from one of the position tables. */
  datatype Pos = Pos(x: int, y: int)

  /** `row.map((pos, idx) => ({ index: idx + base, ...pos, w, h }))`. */
  function MapRow(row: seq<Pos>, base: int, w: int, h: int): (r: seq<Rect>)
    ensures |r| == |row|
    ensures forall i :: 0 <= i < |r| ==>
      r[i].index == base + i && r[i].x == row[i].x && r[i].y == row[i].y && r[i].w == w && r[i].h == h
    decreases |row|
  {
    if row == [] then []
    else MapRow(row[..|row| - 1], base, w, h) + [Rect(base + |row| - 1, row[|row| - 1].x, row[|row| - 1].y, w, h)]
  }

  const ClashCellWidth: int := 60
  const ClashCellHeight: int := 49
  const ClashFirstRow: seq<Pos> := [Pos(350, 22), Pos(423, 22), Pos(496, 22), Pos(569, 22), Pos(643, 22)]
  const ClashSecondRow: seq<Pos> := [Pos(350, 93), Pos(423, 93), Pos(496, 93), Pos(569, 93)]

  /** `sliceClashCells`: the first row numbered from 1, the second from 6. */
  function SliceClashCells(): (r: seq<Rect>)
    ensures |r| == 9
  {
    MapRow(ClashFirstRow, 1, ClashCellWidth, ClashCellHeight)
      + MapRow(ClashSecondRow, 6, ClashCellWidth, ClashCellHeight)
  }

  const FrontierCellWidth: int := 66
  const FrontierCellHeight: int := 54
  const FrontierFirstRow: seq<Pos> :=
    [Pos(442, 22), Pos(523, 22), Pos(604, 22), Pos(686, 22), Pos(767, 22), Pos(848, 22)]
  const FrontierSecondRow: seq<Pos> := [Pos(442, 101), Pos(523, 101), Pos(604, 101)]

  /** `sliceFrontierCells`: the six-cell first row is numbered from 1 but the second row
      is still numbered from 6, so index 6 is used twice and 9 never. */
  function SliceFrontierCells(): (r: seq<Rect>)
    ensures |r| == 9
  {
    MapRow(FrontierFirstRow, 1, FrontierCellWidth, FrontierCellHeight)
      + MapRow(FrontierSecondRow, 6, FrontierCellWidth, FrontierCellHeight)
  }

  /** Two rectangles share no pixel. */
  predicate Disjoint(a: Rect, b: Rect) {
    a.x + a.w <= b.x || b.x + b.w <= a.x || a.y + a.h <= b.y || b.y + b.h <= a.y
  }

  /** No two cells of a table overlap. */
  predicate NoOverlap(r: seq<Rect>) {
    forall i, j :: 0 <= i < j < |r| ==> Disjoint(r[i], r[j])
  }

  /** Clash: nine 60x49 cells numbered 1..9 in order, 1-5 on the row at y = 22 and 6-9
      on the row at y = 93. */
  lemma ClashTable()
    ensures forall i :: 0 <= i < 9 ==>
      SliceClashCells()[i].index == i + 1 &&
      SliceClashCells()[i].w == 60 && SliceClashCells()[i].h == 49 &&
      SliceClashCells()[i].y == (if i < 5 then 22 else 93)
  {
    var a := MapRow(ClashFirstRow, 1, ClashCellWidth, ClashCellHeight);
    var b := MapRow(ClashSecondRow, 6, ClashCellWidth, ClashCellHeight);
    forall i | 0 <= i < 9
      ensures SliceClashCells()[i].index == i + 1 && SliceClashCells()[i].w == 60
      ensures SliceClashCells()[i].h == 49 && SliceClashCells()[i].y == (if i < 5 then 22 else 93)
    {
      if i < 5 {
        assert SliceClashCells()[i] == a[i];
      } else {
        assert SliceClashCells()[i] == b[i - 5];
      }
    }
  }

  /** Clash cells are pairwise disjoint. */
  lemma ClashNoOverlap()
    ensures NoOverlap(SliceClashCells())
  {
    var r := SliceClashCells();
    var a := MapRow(ClashFirstRow, 1, ClashCellWidth, ClashCellHeight);
    var b := MapRow(ClashSecondRow, 6, ClashCellWidth, ClashCellHeight);
    assert r == a + b;
    assert NoOverlap(a);
    assert NoOverlap(b);
    forall i, j | 0 <= i < 5 <= j < 9
      ensures Disjoint(r[i], r[j])
    {
      assert r[i] == a[i] && r[j] == b[j - 5];
    }
  }

  /** Frontier: nine 66x54 cells, six on the row at y = 22 and three on the row at
      y = 101, with indices 1, 2, 3, 4, 5, 6, 6, 7, 8. */
  lemma FrontierTable()
    ensures forall i :: 0 <= i < 9 ==>
      SliceFrontierCells()[i].w == 66 && SliceFrontierCells()[i].h == 54 &&
      SliceFrontierCells()[i].y == (if i < 6 then 22 else 101)
    ensures seq(9, i requires 0 <= i < 9 => SliceFrontierCells()[i].index) == [1, 2, 3, 4, 5, 6, 6, 7, 8]
  {
    var a := MapRow(FrontierFirstRow, 1, FrontierCellWidth, FrontierCellHeight);
    var b := MapRow(FrontierSecondRow, 6, FrontierCellWidth, FrontierCellHeight);
    forall i | 0 <= i < 9
      ensures SliceFrontierCells()[i].w == 66 && SliceFrontierCells()[i].h == 54
      ensures SliceFrontierCells()[i].y == (if i < 6 then 22 else 101)
      ensures SliceFrontierCells()[i].index == [1, 2, 3, 4, 5, 6, 6, 7, 8][i]
    {
      if i < 6 {
        assert SliceFrontierCells()[i] == a[i];
      } else {
        assert SliceFrontierCells()[i] == b[i - 6];
      }
    }
  }

  /** Frontier index 6 labels two different cells and no cell carries index 9. */
  lemma FrontierDuplicateIndex()
    ensures SliceFrontierCells()[5].index == SliceFrontierCells()[6].index == 6
    ensures SliceFrontierCells()[5] != SliceFrontierCells()[6]
    ensures forall i :: 0 <= i < 9 ==> SliceFrontierCells()[i].index != 9
  {
    FrontierTable();
    assert SliceFrontierCells()[5].index == [1, 2, 3, 4, 5, 6, 6, 7, 8][5];
    assert SliceFrontierCells()[6].index == [1, 2, 3, 4, 5, 6, 6, 7, 8][6];
    forall i | 0 <= i < 9
      ensures SliceFrontierCells()[i].index != 9
    {
      assert SliceFrontierCells()[i].index == [1, 2, 3, 4, 5, 6, 6, 7, 8][i];
    }
  }

  /** Frontier cells are pairwise disjoint. */
  lemma FrontierNoOverlap()
    ensures NoOverlap(SliceFrontierCells())
  {
    var r := SliceFrontierCells();
    var a := MapRow(FrontierFirstRow, 1, FrontierCellWidth, FrontierCellHeight);
    var b := MapRow(FrontierSecondRow, 6, FrontierCellWidth, FrontierCellHeight);
    assert r == a + b;
    assert NoOverlap(a);
    assert NoOverlap(b);
    forall i, j | 0 <= i < 6 <= j < 9
      ensures Disjoint(r[i], r[j])
    {
      assert r[i] == a[i] && r[j] == b[j - 6];
    }
  }
}
