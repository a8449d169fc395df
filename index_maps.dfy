/** Coordinate tables of a Sudoku grid of side n = base * base (boxes are
    base x base). A cell is a linear index below n * n; each cell has a
    (row, position-in-row), a (column, position-in-column) and a
    (box, position-in-box) coordinate, and each table has an inverse that maps
    a coordinate back to the cell. The tables are built once and never change. */
module IndexMaps {
  import opened Arith

  /** A coordinate: which group (`idx`) and which slot inside it (`opt`). */
  datatype IdxOpt = IdxOpt(idx: nat, opt: nat)

  datatype Maps = Maps(
    base: nat,
    n: nat,
    cellToRowOpt: seq<IdxOpt>,
    cellToColOpt: seq<IdxOpt>,
    cellToBoxOpt: seq<IdxOpt>,
    rowOptToCell: seq<seq<nat>>,
    colOptToCell: seq<seq<nat>>,
    boxOptToCell: seq<seq<nat>>)

  /** `back` is an n x n table and `fwd` an (n * n)-long table, each the
      inverse of the other, with every coordinate below n. */
  ghost predicate Inverse(fwd: seq<IdxOpt>, back: seq<seq<nat>>, n: nat)
  {
    && |fwd| == n * n
    && |back| == n
    && (forall i :: 0 <= i < n ==> |back[i]| == n)
    && (forall c :: 0 <= c < n * n ==>
          fwd[c].idx < n && fwd[c].opt < n && back[fwd[c].idx][fwd[c].opt] == c)
    && (forall i, o :: 0 <= i < n && 0 <= o < n ==>
          back[i][o] < n * n && fwd[back[i][o]] == IdxOpt(i, o))
  }

  ghost predicate Valid(m: Maps)
  {
    && m.base >= 1
    && m.n == m.base * m.base
    && Inverse(m.cellToRowOpt, m.rowOptToCell, m.n)
    && Inverse(m.cellToColOpt, m.colOptToCell, m.n)
    && Inverse(m.cellToBoxOpt, m.boxOptToCell, m.n)
  }

  // The index arithmetic of one cell, for a grid of side n = base * base.

  function Row(base: nat, cell: nat): nat
    requires base >= 1
  {
    cell / (base * base)
  }

  function Col(base: nat, cell: nat): nat
    requires base >= 1
  {
    cell % (base * base)
  }

  /** The high base-digit of x followed by the high base-digit of y. */
  function Hi(base: nat, x: nat, y: nat): nat
    requires base >= 1
  {
    x / base * base + y / base
  }

  /** The low base-digit of x followed by the low base-digit of y. */
  function Lo(base: nat, x: nat, y: nat): nat
    requires base >= 1
  {
    x % base * base + y % base
  }

  function Box(base: nat, cell: nat): nat
    requires base >= 1
  {
    Hi(base, Row(base, cell), Col(base, cell))
  }

  function BoxOpt(base: nat, cell: nat): nat
    requires base >= 1
  {
    Lo(base, Row(base, cell), Col(base, cell))
  }

  /** The cell at position `p` of row `r` (also: at position `r` of column `p`). */
  function CellAt(base: nat, r: nat, p: nat): nat
  {
    r * (base * base) + p
  }

  /** The cell at position `o` of box `b`. */
  function BoxCell(base: nat, b: nat, o: nat): nat
    requires base >= 1
  {
    CellAt(base, Hi(base, b, o), Lo(base, b, o))
  }

  /** A number below n = base * base has two base-digits. */
  lemma Split(base: nat, x: nat)
    requires base >= 1 && x < base * base
    ensures x / base < base && x % base < base && x == x / base * base + x % base
  {
    DivBound(x, base, base);
  }

  /** Two base-digits make a number below n from which they can be read back. */
  lemma Join(base: nat, q: nat, r: nat)
    requires q < base && r < base
    ensures 0 <= q * base + r < base * base
    ensures (q * base + r) / base == q && (q * base + r) % base == r
  {
    MulMonotone(0, q, base);
    PackBound(q, r, base, base);
    DivModUnique(q, r, base);
  }

  /** Regrouping the base-digits of a pair below n gives a pair below n, and
      regrouping twice gives the pair back: this is the correspondence between
      (row, column) and (box, position in box). */
  lemma Regroup(base: nat, x: nat, y: nat)
    requires base >= 1 && x < base * base && y < base * base
    ensures Hi(base, x, y) < base * base && Lo(base, x, y) < base * base
    ensures Hi(base, Hi(base, x, y), Lo(base, x, y)) == x
    ensures Lo(base, Hi(base, x, y), Lo(base, x, y)) == y
  {
    Split(base, x);
    Split(base, y);
    var qx, rx, qy, ry := x / base, x % base, y / base, y % base;
    Join(base, qx, qy);
    Join(base, rx, ry);
    var h, l := qx * base + qy, rx * base + ry;
    assert Hi(base, x, y) == h && Lo(base, x, y) == l;
    assert Hi(base, h, l) == qx * base + rx;
    assert Lo(base, h, l) == qy * base + ry;
  }

  /** A row (or column) coordinate below n names a cell whose coordinate it is. */
  lemma RowColRoundTrip(base: nat, r: nat, p: nat)
    requires base >= 1 && r < base * base && p < base * base
    ensures CellAt(base, r, p) < (base * base) * (base * base)
    ensures Row(base, CellAt(base, r, p)) == r && Col(base, CellAt(base, r, p)) == p
  {
    PackBound(r, p, base * base, base * base);
    DivModUnique(r, p, base * base);
  }

  /** Every coordinate of a cell is below n, and each inverse formula gives
      the cell back. */
  lemma CellRoundTrip(base: nat, cell: nat)
    requires base >= 1 && cell < (base * base) * (base * base)
    ensures Row(base, cell) < base * base && Col(base, cell) < base * base
    ensures Box(base, cell) < base * base && BoxOpt(base, cell) < base * base
    ensures CellAt(base, Row(base, cell), Col(base, cell)) == cell
    ensures BoxCell(base, Box(base, cell), BoxOpt(base, cell)) == cell
  {
    DivBound(cell, base * base, base * base);
    Regroup(base, Row(base, cell), Col(base, cell));
  }

  /** A box coordinate below n names a cell whose box coordinate it is. */
  lemma BoxRoundTrip(base: nat, b: nat, o: nat)
    requires base >= 1 && b < base * base && o < base * base
    ensures BoxCell(base, b, o) < (base * base) * (base * base)
    ensures Box(base, BoxCell(base, b, o)) == b && BoxOpt(base, BoxCell(base, b, o)) == o
  {
    Regroup(base, b, o);
    RowColRoundTrip(base, Hi(base, b, o), Lo(base, b, o));
  }

  /** The three kinds of group a cell belongs to. */
  datatype Group = RowGroup | ColGroup | BoxGroup

  /** The coordinate of a cell in a group of the given kind. */
  function Coord(base: nat, g: Group, cell: nat): IdxOpt
    requires base >= 1
  {
    match g
    case RowGroup => IdxOpt(Row(base, cell), Col(base, cell))
    case ColGroup => IdxOpt(Col(base, cell), Row(base, cell))
    case BoxGroup => IdxOpt(Box(base, cell), BoxOpt(base, cell))
  }

  /** The cell at slot `o` of group `i` of the given kind. */
  function CellOf(base: nat, g: Group, i: nat, o: nat): nat
    requires base >= 1
  {
    match g
    case RowGroup => CellAt(base, i, o)
    case ColGroup => CellAt(base, o, i)
    case BoxGroup => BoxCell(base, i, o)
  }

  lemma CoordRoundTrip(base: nat, g: Group, cell: nat)
    requires base >= 1 && cell < (base * base) * (base * base)
    ensures Coord(base, g, cell).idx < base * base && Coord(base, g, cell).opt < base * base
    ensures CellOf(base, g, Coord(base, g, cell).idx, Coord(base, g, cell).opt) == cell
  {
    CellRoundTrip(base, cell);
  }

  lemma CellOfRoundTrip(base: nat, g: Group, i: nat, o: nat)
    requires base >= 1 && i < base * base && o < base * base
    ensures CellOf(base, g, i, o) < (base * base) * (base * base)
    ensures Coord(base, g, CellOf(base, g, i, o)) == IdxOpt(i, o)
  {
    match g
    case RowGroup => RowColRoundTrip(base, i, o);
    case ColGroup => RowColRoundTrip(base, o, i);
    case BoxGroup => BoxRoundTrip(base, i, o);
  }

  /** An n x n table. */
  ghost predicate Square(back: seq<seq<nat>>, n: nat)
  {
    |back| == n && forall i :: 0 <= i < n ==> |back[i]| == n
  }

  /** The tables of one kind after the first `cell` cells were entered. */
  ghost predicate Filled(base: nat, g: Group, fwd: seq<IdxOpt>, back: seq<seq<nat>>, cell: nat)
    requires base >= 1
  {
    && |fwd| == cell
    && (forall k :: 0 <= k < cell ==> fwd[k] == Coord(base, g, k))
    && Square(back, base * base)
    && (forall i, o :: 0 <= i < base * base && 0 <= o < base * base && CellOf(base, g, i, o) < cell ==>
          back[i][o] == CellOf(base, g, i, o))
  }

  /** The table `back` with `cell` written at slot `c`. */
  function Enter(back: seq<seq<nat>>, c: IdxOpt, cell: nat): (r: seq<seq<nat>>)
    requires c.idx < |back| && c.opt < |back[c.idx]|
    ensures |r| == |back| && |r[c.idx]| == |back[c.idx]| && r[c.idx][c.opt] == cell
    ensures forall i, o :: 0 <= i < |back| && 0 <= o < |back[i]| && (i, o) != (c.idx, c.opt) ==>
              o < |r[i]| && r[i][o] == back[i][o]
  {
    var line: seq<nat> := back[c.idx][c.opt := cell];
    back[c.idx := line]
  }

  /** Entering one more cell, as one iteration of the construction loop does. */
  lemma FillStep(base: nat, g: Group, fwd: seq<IdxOpt>, back: seq<seq<nat>>, cell: nat)
    requires base >= 1 && cell < (base * base) * (base * base)
    requires Filled(base, g, fwd, back, cell)
    ensures Coord(base, g, cell).idx < base * base && Coord(base, g, cell).opt < base * base
    ensures var c := Coord(base, g, cell);
      Filled(base, g, fwd + [c], Enter(back, c, cell), cell + 1)
  {
    var n := base * base;
    var c := Coord(base, g, cell);
    CoordRoundTrip(base, g, cell);
    var fwd', back' := fwd + [c], Enter(back, c, cell);
    forall i, o | 0 <= i < n && 0 <= o < n && CellOf(base, g, i, o) < cell + 1
      ensures back'[i][o] == CellOf(base, g, i, o)
    {
      CellOfRoundTrip(base, g, i, o);
    }
  }

  /** Once every cell was entered, the tables of one kind are mutually inverse. */
  lemma FillDone(base: nat, g: Group, fwd: seq<IdxOpt>, back: seq<seq<nat>>)
    requires base >= 1 && Filled(base, g, fwd, back, (base * base) * (base * base))
    ensures Inverse(fwd, back, base * base)
  {
    var n := base * base;
    forall c | 0 <= c < n * n
      ensures fwd[c].idx < n && fwd[c].opt < n && back[fwd[c].idx][fwd[c].opt] == c
    {
      CoordRoundTrip(base, g, c);
    }
    forall i, o | 0 <= i < n && 0 <= o < n
      ensures back[i][o] < n * n && fwd[back[i][o]] == IdxOpt(i, o)
    {
      CellOfRoundTrip(base, g, i, o);
    }
  }

  /** Builds the six tables by one pass over the cells, as the solver does
      once per grid shape. The tables agree with the index arithmetic above and
      are mutually inverse. */
  method ConstructMaps(base: nat) returns (m: Maps)
    requires base >= 1
    ensures Valid(m) && m.base == base
    ensures forall cell :: 0 <= cell < m.n * m.n ==>
              && m.cellToRowOpt[cell] == Coord(base, RowGroup, cell)
              && m.cellToColOpt[cell] == Coord(base, ColGroup, cell)
              && m.cellToBoxOpt[cell] == Coord(base, BoxGroup, cell)
  {
    var n := base * base;
    var toRow, toCol, toBox: seq<IdxOpt> := [], [], [];
    var zero: seq<seq<nat>> := seq(n, _ => seq(n, _ => 0));
    var fromRow: seq<seq<nat>>, fromCol: seq<seq<nat>>, fromBox: seq<seq<nat>> := zero, zero, zero;
    var cell: nat := 0;
    while cell < n * n
      invariant cell <= n * n
      invariant Filled(base, RowGroup, toRow, fromRow, cell)
      invariant Filled(base, ColGroup, toCol, fromCol, cell)
      invariant Filled(base, BoxGroup, toBox, fromBox, cell)
    {
      FillStep(base, RowGroup, toRow, fromRow, cell);
      FillStep(base, ColGroup, toCol, fromCol, cell);
      FillStep(base, BoxGroup, toBox, fromBox, cell);
      var row, col := Row(base, cell), Col(base, cell);
      var box, boxOpt := Box(base, cell), BoxOpt(base, cell);

      toRow := toRow + [IdxOpt(row, col)];
      toCol := toCol + [IdxOpt(col, row)];
      toBox := toBox + [IdxOpt(box, boxOpt)];

      fromRow := Enter(fromRow, IdxOpt(row, col), cell);
      fromCol := Enter(fromCol, IdxOpt(col, row), cell);
      fromBox := Enter(fromBox, IdxOpt(box, boxOpt), cell);
      cell := cell + 1;
    }
    FillDone(base, RowGroup, toRow, fromRow);
    FillDone(base, ColGroup, toCol, fromCol);
    FillDone(base, BoxGroup, toBox, fromBox);
    m := Maps(base, n, toRow, toCol, toBox, fromRow, fromCol, fromBox);
  }

  // The uniform unit index of the search: 4 * n * n units, a block of n * n
  // per kind. Kind 0 is a cell (its candidates are values); kinds 1, 2 and 3
  // are the view of one value in one row, column or box (its candidates are
  // slots of that group).

  /** A decoded unit index: the kind, the position `idx` in the kind's block,
      and `idx` split into a group `idx1` and a value `idx2`. */
  datatype UnitRef = UnitRef(kind: nat, idx: nat, idx1: nat, idx2: nat)

  function UnitOf(n: nat, typeIdx: nat): (u: UnitRef)
    requires n >= 1 && typeIdx < 4 * (n * n)
    ensures u.kind < 4 && u.idx < n * n && u.idx1 < n && u.idx2 < n
    ensures typeIdx == u.kind * (n * n) + u.idx && u.idx == u.idx1 * n + u.idx2
  {
    var idx := typeIdx % (n * n);
    var kind := typeIdx / (n * n);
    DivBound(typeIdx, n * n, 4);
    DivBound(idx, n, n);
    UnitRef(kind, idx, idx / n, idx % n)
  }

  /** Every unit has exactly one index: encoding a unit and decoding the index
      gives the unit back. */
  lemma UnitIndex(n: nat, kind: nat, idx1: nat, idx2: nat)
    requires n >= 1 && kind < 4 && idx1 < n && idx2 < n
    ensures kind * (n * n) + (idx1 * n + idx2) < 4 * (n * n)
    ensures UnitOf(n, kind * (n * n) + (idx1 * n + idx2)) == UnitRef(kind, idx1 * n + idx2, idx1, idx2)
  {
    PairBound(n, idx1, idx2);
    var idx := idx1 * n + idx2;
    PackBound(kind, idx, n * n, 4);
    DivModUnique(kind, idx, n * n);
    DivModUnique(idx1, idx2, n);
  }

  /** The first n * n units are the cells, in cell order. */
  lemma CellUnit(n: nat, c: nat)
    requires c < n * n
    ensures n >= 1 && c < 4 * (n * n)
    ensures UnitOf(n, c).kind == 0 && UnitOf(n, c).idx == c
  {
    DivModUnique(0, c, n * n);
  }

  /** A pair of digits below n packs below n * n. */
  lemma PairBound(n: nat, q: nat, r: nat)
    requires q < n && r < n
    ensures q * n + r < n * n
  {
    PackBound(q, r, n, n);
  }

  /** The candidate `opt` of unit `typeIdx` as a (cell, value) pair: for a
      cell unit the value `opt` of that cell, for a group view the cell at slot
      `opt` of the group, with the view's value. */
  function TypeIdxOptToCellVal(m: Maps, typeIdx: nat, opt: nat): (cv: IdxOpt)
    requires Valid(m) && typeIdx < 4 * (m.n * m.n) && opt < m.n
    ensures cv.idx < m.n * m.n && cv.opt < m.n
    ensures var u := UnitOf(m.n, typeIdx);
      && (u.kind == 0 ==> cv == IdxOpt(u.idx, opt))
      && (u.kind == 1 ==> m.cellToRowOpt[cv.idx] == IdxOpt(u.idx1, opt) && cv.opt == u.idx2)
      && (u.kind == 2 ==> m.cellToColOpt[cv.idx] == IdxOpt(u.idx1, opt) && cv.opt == u.idx2)
      && (u.kind == 3 ==> m.cellToBoxOpt[cv.idx] == IdxOpt(u.idx1, opt) && cv.opt == u.idx2)
  {
    var u := UnitOf(m.n, typeIdx);
    if u.kind == 0 then IdxOpt(u.idx, opt)
    else if u.kind == 1 then IdxOpt(m.rowOptToCell[u.idx1][opt], u.idx2)
    else if u.kind == 2 then IdxOpt(m.colOptToCell[u.idx1][opt], u.idx2)
    else IdxOpt(m.boxOptToCell[u.idx1][opt], u.idx2)
  }
}
