/** 2015 day 25: the codes written along the diagonals of an infinite grid,
    each the previous one times 252533 modulo 33554393. */
module Year2015Day25 {

  const FirstCode: nat := 20151125
  const Multiplier: nat := 252533
  const Modulus: nat := 33554393

  /** The place of a cell in the diagonal order, counting (1, 1) as 1: the
      diagonal through (row, col) is number row + col - 1, and the ones
      before it hold 1 + 2 + ... + (row + col - 2) cells. */
  function Ordinal(row: nat, col: nat): nat
    requires row >= 1 && col >= 1
  {
    Triangle(row + col - 2) + col
  }

  function Triangle(n: nat): nat {
    if n == 0 then 0 else Triangle(n - 1) + n
  }

  /** The cell after (row, col) on the walk: up and right along the diagonal,
      or down to the start of the next diagonal from the top row. */
  function NextCell(row: nat, col: nat): (c: (nat, nat))
    requires row >= 1 && col >= 1
    ensures c.0 >= 1 && c.1 >= 1
    ensures row > 1 ==> c == (row - 1, col + 1)
    ensures row == 1 ==> c == (col + 1, 1)
  {
    if row - 1 == 0 then (col + 1, 1) else (row - 1, col + 1)
  }

  /** The walk visits the cells in ordinal order, one after another. */
  lemma NextCellIsNextOrdinal(row: nat, col: nat)
    requires row >= 1 && col >= 1
    ensures Ordinal(NextCell(row, col).0, NextCell(row, col).1) == Ordinal(row, col) + 1
  {
    if row == 1 {
      assert Triangle(col) == Triangle(col - 1) + col;
    }
  }

  /** `DiagonalIterator`: the cell it yields next. */
  class DiagonalIterator {
    var row: nat
    var col: nat

    ghost predicate Valid()
      reads this
    {
      row >= 1 && col >= 1
    }

    /** `DiagonalIterator::new`: the walk starts at (1, 1). */
    constructor ()
      ensures Valid() && row == 1 && col == 1
    {
      row, col := 1, 1;
    }

    /** `next`: yields the current cell and moves along the walk; it never ends. */
    method Next() returns (cell: (nat, nat))
      requires Valid()
      modifies this
      ensures Valid()
      ensures cell == old((row, col))
      ensures (row, col) == NextCell(old(row), old(col))
      ensures Ordinal(row, col) == Ordinal(old(row), old(col)) + 1
    {
      cell := (row, col);
      row := row - 1;
      col := col + 1;
      if row == 0 {
        row := col;
        col := 1;
      }
      NextCellIsNextOrdinal(cell.0, cell.1);
    }
  }

  /** The code in the `n`-th cell of the walk. */
  function Code(n: nat): (c: nat)
    requires n >= 1
    ensures n > 1 ==> c < Modulus
  {
    if n == 1 then FirstCode else Code(n - 1) * Multiplier % Modulus
  }

  /** Every code fits in 25 bits, so the product fits easily in a `u64`. */
  lemma CodeBounded(n: nat)
    requires n >= 1
    ensures Code(n) < Modulus && Code(n) * Multiplier < 0x1_0000_0000_0000_0000
  {
    assert FirstCode < Modulus;
  }

  /** `main`'s loop as written: the first cell is taken before the loop, so
      the loop first compares (2, 1). It finds every target but (1, 1). */
  method CodeAtAsWritten(targetRow: nat, targetCol: nat) returns (code: nat)
    requires targetRow >= 1 && targetCol >= 1 && (targetRow, targetCol) != (1, 1)
    ensures code == Code(Ordinal(targetRow, targetCol))
  {
    code := FirstCode;
    var di := new DiagonalIterator();
    var _ := di.Next();
    var target := Ordinal(targetRow, targetCol);
    OrdinalFirst(targetRow, targetCol);
    while true
      invariant di.Valid() && 2 <= Ordinal(di.row, di.col) <= target
      invariant code == Code(Ordinal(di.row, di.col) - 1)
      decreases target - Ordinal(di.row, di.col)
    {
      var p := di.Next();
      code := code * Multiplier % Modulus;
      if p == (targetRow, targetCol) {
        return;
      }
      OrdinalInjective(p.0, p.1, targetRow, targetCol);
    }
  }

  /** Only (1, 1) has ordinal 1. */
  lemma OrdinalFirst(row: nat, col: nat)
    requires row >= 1 && col >= 1
    ensures Ordinal(row, col) >= 1
    ensures Ordinal(row, col) == 1 ==> (row, col) == (1, 1)
  {
    if row + col - 2 > 0 {
      TriangleGrows(row + col - 2);
    }
  }

  lemma TriangleGrows(n: nat)
    requires n > 0
    ensures Triangle(n) >= 1
  {
  }

  lemma {:induction false} TriangleMonotone(m: nat, n: nat)
    requires m <= n
    ensures Triangle(m) + (n - m) <= Triangle(n)
    decreases n - m
  {
    if m < n {
      TriangleMonotone(m, n - 1);
    }
  }

  /** Different cells have different ordinals. */
  lemma OrdinalInjective(r1: nat, c1: nat, r2: nat, c2: nat)
    requires r1 >= 1 && c1 >= 1 && r2 >= 1 && c2 >= 1 && (r1, c1) != (r2, c2)
    ensures Ordinal(r1, c1) != Ordinal(r2, c2)
  {
    var d1, d2 := r1 + c1 - 2, r2 + c2 - 2;
    if d1 < d2 {
      TriangleMonotone(d1 + 1, d2);
      assert Triangle(d1 + 1) == Triangle(d1) + d1 + 1;
    } else if d2 < d1 {
      TriangleMonotone(d2 + 1, d1);
      assert Triangle(d2 + 1) == Triangle(d2) + d2 + 1;
    }
  }

  /** The `n`-th cell of the walk. */
  function CellAt(n: nat): (c: (nat, nat))
    requires n >= 1
    ensures c.0 >= 1 && c.1 >= 1
  {
    if n == 1 then (1, 1) else NextCell(CellAt(n - 1).0, CellAt(n - 1).1)
  }

  lemma {:induction false} CellAtOrdinal(n: nat)
    requires n >= 1
    ensures Ordinal(CellAt(n).0, CellAt(n).1) == n
  {
    if n > 1 {
      CellAtOrdinal(n - 1);
      NextCellIsNextOrdinal(CellAt(n - 1).0, CellAt(n - 1).1);
    }
  }

  /** As written, the loop compares the cells from the second on: none of
      them is (1, 1), so for that target the loop never stops. */
  lemma AsWrittenMissesFirstCell(n: nat)
    requires n >= 2
    ensures CellAt(n) != (1, 1)
  {
    CellAtOrdinal(n);
  }

  /** The intended search: compare each cell before moving on, so (1, 1)
      gives the first code. */
  method CodeAt(targetRow: nat, targetCol: nat) returns (code: nat)
    requires targetRow >= 1 && targetCol >= 1
    ensures code == Code(Ordinal(targetRow, targetCol))
  {
    code := FirstCode;
    var di := new DiagonalIterator();
    var target := Ordinal(targetRow, targetCol);
    OrdinalFirst(targetRow, targetCol);
    while true
      invariant di.Valid() && 1 <= Ordinal(di.row, di.col) <= target
      invariant code == Code(Ordinal(di.row, di.col))
      decreases target - Ordinal(di.row, di.col)
    {
      var p := di.Next();
      if p == (targetRow, targetCol) {
        return;
      }
      OrdinalInjective(p.0, p.1, targetRow, targetCol);
      code := code * Multiplier % Modulus;
    }
  }
}
