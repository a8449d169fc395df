/** The four redundant views of one board state, as values. `cells[c]` holds
    the values still allowed in cell c; `rows[r][v]` holds the positions of
    row r where value v may still go, and likewise `cols` and `boxs`. The
    views are coherent when each flag of a cell agrees with the matching flag
    of its row, column and box view. */
module Coherence {
  import Arith
  import opened IndexMaps
  import opened Candidates

  datatype Views = Views(
    cells: seq<Options>,
    rows: seq<seq<Options>>,
    cols: seq<seq<Options>>,
    boxs: seq<seq<Options>>)

  /** An n x n table of live candidate sets over n flags. */
  ghost predicate Table(t: seq<seq<Options>>, n: nat)
  {
    |t| == n && forall i :: 0 <= i < n ==> |t[i]| == n && forall v :: 0 <= v < n ==> Live(t[i][v], n)
  }

  /** n * n cells over n values each. */
  ghost predicate Sized(cells: seq<Options>, n: nat)
  {
    |cells| == n * n && forall c :: 0 <= c < n * n ==> |cells[c].isOpt| == n
  }

  ghost predicate Shaped(m: Maps, w: Views)
  {
    && Sized(w.cells, m.n)
    && (forall c :: 0 <= c < m.n * m.n ==> Live(w.cells[c], m.n))
    && Table(w.rows, m.n) && Table(w.cols, m.n) && Table(w.boxs, m.n)
  }

  /** Valid coordinate tables, well-shaped views that never run empty, and the
      four views agreeing flag by flag. */
  ghost predicate Coherent(m: Maps, w: Views)
  {
    && IndexMaps.Valid(m)
    && Shaped(m, w)
    && forall c, v :: 0 <= c < m.n * m.n && 0 <= v < m.n ==>
         var r, k, b := m.cellToRowOpt[c], m.cellToColOpt[c], m.cellToBoxOpt[c];
         && w.rows[r.idx][v].isOpt[r.opt] == w.cells[c].isOpt[v]
         && w.cols[k.idx][v].isOpt[k.opt] == w.cells[c].isOpt[v]
         && w.boxs[b.idx][v].isOpt[b.opt] == w.cells[c].isOpt[v]
  }

  /** Read from the group side: slot o of the view of value v in row (column,
      box) i is the flag for v of the cell at that slot. */
  lemma ViewFlags(m: Maps, w: Views, i: nat, o: nat, v: nat)
    requires Coherent(m, w) && i < m.n && o < m.n && v < m.n
    ensures w.rows[i][v].isOpt[o] == w.cells[m.rowOptToCell[i][o]].isOpt[v]
    ensures w.cols[i][v].isOpt[o] == w.cells[m.colOptToCell[i][o]].isOpt[v]
    ensures w.boxs[i][v].isOpt[o] == w.cells[m.boxOptToCell[i][o]].isOpt[v]
  {
    var rc, kc, bc := m.rowOptToCell[i][o], m.colOptToCell[i][o], m.boxOptToCell[i][o];
    assert m.cellToRowOpt[rc] == IdxOpt(i, o);
    assert m.cellToColOpt[kc] == IdxOpt(i, o);
    assert m.cellToBoxOpt[bc] == IdxOpt(i, o);
  }

  /** Two cells with the same coordinate in one kind of group are the same cell. */
  lemma SameSlot(m: Maps, c: nat, d: nat)
    requires IndexMaps.Valid(m) && c < m.n * m.n && d < m.n * m.n
    ensures m.cellToRowOpt[c] == m.cellToRowOpt[d] ==> c == d
    ensures m.cellToColOpt[c] == m.cellToColOpt[d] ==> c == d
    ensures m.cellToBoxOpt[c] == m.cellToBoxOpt[d] ==> c == d
  {
  }

  /** Every flag of every cell in `after` is also set in `before`: candidates
      were only ever taken away. */
  ghost predicate Narrows(before: seq<Options>, after: seq<Options>)
  {
    |before| == |after| && forall c :: 0 <= c < |after| ==> Within(after[c], before[c])
  }

  /** The total number of candidates left over all cells. */
  function Total(cells: seq<Options>): nat
  {
    if |cells| == 0 then 0 else Total(cells[..|cells| - 1]) + cells[|cells| - 1].numOpts
  }

  lemma {:induction false} TotalUpdate(s: seq<Options>, i: nat, x: Options)
    requires i < |s|
    ensures Total(s[i := x]) + s[i].numOpts == Total(s) + x.numOpts
    decreases |s|
  {
    var last := |s| - 1;
    assert s[i := x][..last] == if i == last then s[..last] else s[..last][i := x];
    if i < last {
      TotalUpdate(s[..last], i, x);
    }
  }

  /** Fewer candidates per cell means fewer in all, strictly when one cell lost some. */
  lemma {:induction false} TotalLess(a: seq<Options>, b: seq<Options>)
    requires |a| == |b| && forall c :: 0 <= c < |a| ==> b[c].numOpts <= a[c].numOpts
    ensures Total(b) <= Total(a)
    ensures (exists c :: 0 <= c < |a| && b[c].numOpts < a[c].numOpts) ==> Total(b) < Total(a)
    decreases |a|
  {
    if |a| > 0 {
      var last := |a| - 1;
      TotalLess(a[..last], b[..last]);
      if exists c :: 0 <= c < |a| && b[c].numOpts < a[c].numOpts {
        var c :| 0 <= c < |a| && b[c].numOpts < a[c].numOpts;
        if c < last {
          assert b[..last][c].numOpts < a[..last][c].numOpts;
        }
      }
    }
  }

  /** Narrowing never adds candidates, and removes some unless every cell is unchanged. */
  lemma NarrowsTotal(before: seq<Options>, after: seq<Options>, n: nat)
    requires Narrows(before, after)
    requires forall c :: 0 <= c < |before| ==> WellFormed(before[c], n) && WellFormed(after[c], n)
    ensures Total(after) <= Total(before)
    ensures after != before ==> Total(after) < Total(before)
  {
    forall c | 0 <= c < |before|
      ensures after[c].numOpts <= before[c].numOpts
      ensures after[c] != before[c] ==> after[c].numOpts < before[c].numOpts
    {
      ShrinkCount(after[c], before[c], n);
    }
    if after != before {
      var c :| 0 <= c < |before| && after[c] != before[c];
    }
    TotalLess(before, after);
  }

  /** Cell c holds exactly one candidate and that value is placed: its row,
      column and box views of the value allow only this cell. */
  ghost predicate Done(m: Maps, w: Views, c: nat)
    requires Coherent(m, w) && c < m.n * m.n
  {
    && w.cells[c].numOpts == 1
    && forall v :: 0 <= v < m.n && w.cells[c].isOpt[v] ==>
         && w.rows[m.cellToRowOpt[c].idx][v].numOpts == 1
         && w.cols[m.cellToColOpt[c].idx][v].numOpts == 1
         && w.boxs[m.cellToBoxOpt[c].idx][v].numOpts == 1
  }

  /** A cell at rest: a cell marked set is done, an unmarked one still has a choice. */
  ghost predicate Fits(m: Maps, w: Views, isSet: seq<bool>, c: nat)
    requires Coherent(m, w) && |isSet| == m.n * m.n && c < m.n * m.n
  {
    if isSet[c] then Done(m, w, c) else w.cells[c].numOpts > 1
  }

  /** The row (kind 1), column (kind 2) or box (kind 3) of `cell`, with the
      cell's slot in it. */
  function GroupOf(m: Maps, kind: nat, cell: nat): (g: IdxOpt)
    requires IndexMaps.Valid(m) && 1 <= kind <= 3 && cell < m.n * m.n
    ensures g.idx < m.n && g.opt < m.n
  {
    if kind == 1 then m.cellToRowOpt[cell]
    else if kind == 2 then m.cellToColOpt[cell]
    else m.cellToBoxOpt[cell]
  }

  /** The view of `val` in the row, column or box of `cell`. */
  function GroupView(m: Maps, w: Views, kind: nat, cell: nat, val: nat): (o: Options)
    requires Coherent(m, w) && 1 <= kind <= 3 && cell < m.n * m.n && val < m.n
    ensures Live(o, m.n)
  {
    var i := GroupOf(m, kind, cell).idx;
    if kind == 1 then w.rows[i][val] else if kind == 2 then w.cols[i][val] else w.boxs[i][val]
  }

  /** The cell at slot `o` of the row, column or box of `cell`. */
  function GroupCell(m: Maps, kind: nat, cell: nat, o: nat): (d: nat)
    requires IndexMaps.Valid(m) && 1 <= kind <= 3 && cell < m.n * m.n && o < m.n
    ensures d < m.n * m.n
  {
    var i := GroupOf(m, kind, cell).idx;
    if kind == 1 then m.rowOptToCell[i][o] else if kind == 2 then m.colOptToCell[i][o] else m.boxOptToCell[i][o]
  }

  /** The rest condition of a view: when cell `c` still allows `v` and its
      row (kind 1), column (kind 2) or box (kind 3) view of `v` is down to one
      slot, which is then the slot of `c`, the cell is marked set (the
      hidden single has been assigned). */
  ghost predicate ViewFits(m: Maps, w: Views, isSet: seq<bool>, kind: nat, c: nat, v: nat)
    requires Coherent(m, w) && |isSet| == m.n * m.n && 1 <= kind <= 3 && c < m.n * m.n && v < m.n
  {
    w.cells[c].isOpt[v] && GroupView(m, w, kind, c, v).numOpts == 1 ==> isSet[c]
  }

  /** The view of `val` in the row, column or box of `cell` is at rest. */
  ghost predicate GroupFits(m: Maps, w: Views, isSet: seq<bool>, kind: nat, cell: nat, val: nat)
    requires Coherent(m, w) && |isSet| == m.n * m.n && 1 <= kind <= 3 && cell < m.n * m.n && val < m.n
  {
    forall c :: 0 <= c < m.n * m.n && GroupOf(m, kind, c).idx == GroupOf(m, kind, cell).idx ==>
      ViewFits(m, w, isSet, kind, c, val)
  }

  /** Every view at rest. */
  ghost predicate AllViewsFit(m: Maps, w: Views, isSet: seq<bool>)
    requires Coherent(m, w) && |isSet| == m.n * m.n
  {
    forall kind, c, v :: 1 <= kind <= 3 && 0 <= c < m.n * m.n && 0 <= v < m.n ==> ViewFits(m, w, isSet, kind, c, v)
  }

  /** Every cell at rest. */
  ghost predicate AllFit(m: Maps, w: Views, isSet: seq<bool>)
    requires Coherent(m, w) && |isSet| == m.n * m.n
  {
    forall c :: 0 <= c < m.n * m.n ==> Fits(m, w, isSet, c)
  }

  /** `r` is table `t` with slot `at.opt` taken out of the view of value `v`
      in group `at.idx`, and nothing else changed. */
  ghost predicate ViewCleared(n: nat, t: seq<seq<Options>>, r: seq<seq<Options>>, at: IdxOpt, v: nat)
    requires Table(t, n) && at.idx < n && v < n
  {
    && Table(r, n)
    && (forall i, u :: 0 <= i < n && 0 <= u < n && (i != at.idx || u != v) ==> r[i][u] == t[i][u])
    && (forall o :: 0 <= o < n ==> r[at.idx][v].isOpt[o] == (t[at.idx][v].isOpt[o] && o != at.opt))
  }

  /** `r` is `cells` with value `val` taken out of cell `cell`, and nothing else changed. */
  ghost predicate CellsCleared(n: nat, cells: seq<Options>, r: seq<Options>, cell: nat, val: nat)
    requires |cells| == n * n && cell < n * n && |cells[cell].isOpt| == n
  {
    && |r| == n * n
    && (forall c :: 0 <= c < n * n ==> Live(r[c], n))
    && (forall c :: 0 <= c < n * n && c != cell ==> r[c] == cells[c])
    && (forall v :: 0 <= v < n ==> r[cell].isOpt[v] == (cells[cell].isOpt[v] && v != val))
  }

  function ClearIn(t: seq<seq<Options>>, n: nat, at: IdxOpt, v: nat): (r: seq<seq<Options>>)
    requires Table(t, n) && at.idx < n && at.opt < n && v < n
    requires t[at.idx][v].isOpt[at.opt] && t[at.idx][v].numOpts > 1
    ensures ViewCleared(n, t, r, at, v)
  {
    var line := t[at.idx][v := Candidates.Remove(t[at.idx][v], at.opt)];
    t[at.idx := line]
  }

  /** One flag of the views was cleared: `r` is `w` with value `val` taken out
      of cell `cell` and the cell's slot taken out of the three group views of
      `val`. */
  ghost predicate ClearedFrom(m: Maps, w: Views, cell: nat, val: nat, r: Views)
    requires Coherent(m, w) && cell < m.n * m.n && val < m.n
  {
    && CellsCleared(m.n, w.cells, r.cells, cell, val)
    && ViewCleared(m.n, w.rows, r.rows, m.cellToRowOpt[cell], val)
    && ViewCleared(m.n, w.cols, r.cols, m.cellToColOpt[cell], val)
    && ViewCleared(m.n, w.boxs, r.boxs, m.cellToBoxOpt[cell], val)
  }

  /** The four removals that take value `val` away from cell `cell`: the cell
      loses the value, and the row, column and box views of the value lose the
      cell's slot. Only possible while none of the four is down to one flag. */
  function ClearFlag(m: Maps, w: Views, cell: nat, val: nat): (r: Views)
    requires Coherent(m, w) && cell < m.n * m.n && val < m.n && w.cells[cell].isOpt[val]
    requires w.cells[cell].numOpts > 1
    requires w.rows[m.cellToRowOpt[cell].idx][val].numOpts > 1
    requires w.cols[m.cellToColOpt[cell].idx][val].numOpts > 1
    requires w.boxs[m.cellToBoxOpt[cell].idx][val].numOpts > 1
    ensures ClearedFrom(m, w, cell, val, r)
    ensures r.cells[cell].numOpts + 1 == w.cells[cell].numOpts
  {
    var n := m.n;
    var row, col, box := m.cellToRowOpt[cell], m.cellToColOpt[cell], m.cellToBoxOpt[cell];
    assert w.rows[row.idx][val].isOpt[row.opt] && w.cols[col.idx][val].isOpt[col.opt]
      && w.boxs[box.idx][val].isOpt[box.opt];
    var c' := Candidates.Remove(w.cells[cell], val);
    Views(w.cells[cell := c'], ClearIn(w.rows, n, row, val), ClearIn(w.cols, n, col, val),
      ClearIn(w.boxs, n, box, val))
  }

  /** Clearing a flag keeps the views coherent, only narrows the cells, lowers
      the candidate total by one and leaves every other done cell done. */
  lemma ClearFlagKeepsCoherent(m: Maps, w: Views, cell: nat, val: nat)
    requires Coherent(m, w) && cell < m.n * m.n && val < m.n && w.cells[cell].isOpt[val]
    requires w.cells[cell].numOpts > 1
    requires w.rows[m.cellToRowOpt[cell].idx][val].numOpts > 1
    requires w.cols[m.cellToColOpt[cell].idx][val].numOpts > 1
    requires w.boxs[m.cellToBoxOpt[cell].idx][val].numOpts > 1
    ensures Coherent(m, ClearFlag(m, w, cell, val))
    ensures Narrows(w.cells, ClearFlag(m, w, cell, val).cells)
    ensures Total(ClearFlag(m, w, cell, val).cells) + 1 == Total(w.cells)
    ensures forall d :: 0 <= d < m.n * m.n && d != cell && Done(m, w, d) ==> Done(m, ClearFlag(m, w, cell, val), d)
  {
    var r := ClearFlag(m, w, cell, val);
    ClearedCoherent(m, w, cell, val, r);
    ClearedKeepsDone(m, w, cell, val, r);
    assert w.cells[cell := r.cells[cell]] == r.cells;
    TotalUpdate(w.cells, cell, r.cells[cell]);
  }

  lemma ClearedCoherent(m: Maps, w: Views, cell: nat, val: nat, r: Views)
    requires Coherent(m, w) && cell < m.n * m.n && val < m.n
    requires ClearedFrom(m, w, cell, val, r)
    ensures Coherent(m, r)
    ensures Narrows(w.cells, r.cells)
  {
    var n := m.n;
    forall c, v | 0 <= c < n * n && 0 <= v < n
      ensures r.rows[m.cellToRowOpt[c].idx][v].isOpt[m.cellToRowOpt[c].opt] == r.cells[c].isOpt[v]
      ensures r.cols[m.cellToColOpt[c].idx][v].isOpt[m.cellToColOpt[c].opt] == r.cells[c].isOpt[v]
      ensures r.boxs[m.cellToBoxOpt[c].idx][v].isOpt[m.cellToBoxOpt[c].opt] == r.cells[c].isOpt[v]
    {
      ClearedAgreesAt(m, w, cell, val, r, c, v);
    }
  }

  lemma ClearedAgreesAt(m: Maps, w: Views, cell: nat, val: nat, r: Views, c: nat, v: nat)
    requires Coherent(m, w) && cell < m.n * m.n && val < m.n
    requires ClearedFrom(m, w, cell, val, r)
    requires c < m.n * m.n && v < m.n
    ensures r.rows[m.cellToRowOpt[c].idx][v].isOpt[m.cellToRowOpt[c].opt] == r.cells[c].isOpt[v]
    ensures r.cols[m.cellToColOpt[c].idx][v].isOpt[m.cellToColOpt[c].opt] == r.cells[c].isOpt[v]
    ensures r.boxs[m.cellToBoxOpt[c].idx][v].isOpt[m.cellToBoxOpt[c].opt] == r.cells[c].isOpt[v]
  {
    SameSlot(m, c, cell);
  }

  lemma ClearedKeepsDone(m: Maps, w: Views, cell: nat, val: nat, r: Views)
    requires Coherent(m, w) && cell < m.n * m.n && val < m.n
    requires w.rows[m.cellToRowOpt[cell].idx][val].numOpts > 1
    requires w.cols[m.cellToColOpt[cell].idx][val].numOpts > 1
    requires w.boxs[m.cellToBoxOpt[cell].idx][val].numOpts > 1
    requires ClearedFrom(m, w, cell, val, r) && Coherent(m, r)
    ensures forall d :: 0 <= d < m.n * m.n && d != cell && Done(m, w, d) ==> Done(m, r, d)
  {
    forall d | 0 <= d < m.n * m.n && d != cell && Done(m, w, d)
      ensures Done(m, r, d)
    {
      ClearedKeepsDoneAt(m, w, cell, val, r, d);
    }
  }

  /** The views a done cell relies on are singletons, and the clearing only
      touches views with more than one flag. */
  lemma ClearedKeepsDoneAt(m: Maps, w: Views, cell: nat, val: nat, r: Views, d: nat)
    requires Coherent(m, w) && cell < m.n * m.n && val < m.n
    requires w.rows[m.cellToRowOpt[cell].idx][val].numOpts > 1
    requires w.cols[m.cellToColOpt[cell].idx][val].numOpts > 1
    requires w.boxs[m.cellToBoxOpt[cell].idx][val].numOpts > 1
    requires ClearedFrom(m, w, cell, val, r) && Coherent(m, r)
    requires d < m.n * m.n && d != cell && Done(m, w, d)
    ensures Done(m, r, d)
  {
    forall v | 0 <= v < m.n && r.cells[d].isOpt[v]
      ensures r.rows[m.cellToRowOpt[d].idx][v] == w.rows[m.cellToRowOpt[d].idx][v]
      ensures r.cols[m.cellToColOpt[d].idx][v] == w.cols[m.cellToColOpt[d].idx][v]
      ensures r.boxs[m.cellToBoxOpt[d].idx][v] == w.boxs[m.cellToBoxOpt[d].idx][v]
    {
    }
  }

  /** Slots below k have been swept by an assignment of `val` to `cell`:
      the cell lost every other value, and every other cell of its row,
      column and box lost `val`. */
  ghost predicate ClearedBelow(m: Maps, cells: seq<Options>, cell: nat, val: nat, k: nat)
    requires IndexMaps.Valid(m) && Sized(cells, m.n) && cell < m.n * m.n && val < m.n
  {
    forall o :: 0 <= o < k && o < m.n ==> ClearedSlot(m, cells, cell, val, o)
  }

  /** Slot `o` of the sweep: the cell lost value `o`, and the cell at slot `o`
      of its row, column and box lost `val` (unless that is the cell itself). */
  ghost predicate ClearedSlot(m: Maps, cells: seq<Options>, cell: nat, val: nat, o: nat)
    requires IndexMaps.Valid(m) && Sized(cells, m.n) && cell < m.n * m.n && val < m.n && o < m.n
  {
    var row, col, box := m.cellToRowOpt[cell], m.cellToColOpt[cell], m.cellToBoxOpt[cell];
    && (o != val ==> !cells[cell].isOpt[o])
    && (o != row.opt ==> !cells[m.rowOptToCell[row.idx][o]].isOpt[val])
    && (o != col.opt ==> !cells[m.colOptToCell[col.idx][o]].isOpt[val])
    && (o != box.opt ==> !cells[m.boxOptToCell[box.idx][o]].isOpt[val])
  }

  /** The cell holds only `val`, and is done, once the sweep is complete. */
  lemma DoneWhenCleared(m: Maps, w: Views, cell: nat, val: nat)
    requires Coherent(m, w) && cell < m.n * m.n && val < m.n
    requires ClearedBelow(m, w.cells, cell, val, m.n)
    ensures Done(m, w, cell) && w.cells[cell].isOpt[val]
  {
    var row, col, box := m.cellToRowOpt[cell], m.cellToColOpt[cell], m.cellToBoxOpt[cell];
    SweptViews(m, w, cell, val);
    assert w.rows[row.idx][val].isOpt[row.opt];
    CountOne(w.cells[cell].isOpt, val);
    CountOne(w.rows[row.idx][val].isOpt, row.opt);
    CountOne(w.cols[col.idx][val].isOpt, col.opt);
    CountOne(w.boxs[box.idx][val].isOpt, box.opt);
  }

  /** After a complete sweep the three views of `val` keep only the cell's slot. */
  lemma SweptViews(m: Maps, w: Views, cell: nat, val: nat)
    requires Coherent(m, w) && cell < m.n * m.n && val < m.n
    requires ClearedBelow(m, w.cells, cell, val, m.n)
    ensures forall k :: 0 <= k < m.n && k != val ==> !w.cells[cell].isOpt[k]
    ensures forall k :: 0 <= k < m.n ==> w.rows[m.cellToRowOpt[cell].idx][val].isOpt[k] == (k == m.cellToRowOpt[cell].opt)
    ensures forall k :: 0 <= k < m.n ==> w.cols[m.cellToColOpt[cell].idx][val].isOpt[k] == (k == m.cellToColOpt[cell].opt)
    ensures forall k :: 0 <= k < m.n ==> w.boxs[m.cellToBoxOpt[cell].idx][val].isOpt[k] == (k == m.cellToBoxOpt[cell].opt)
  {
    var row, col, box := m.cellToRowOpt[cell], m.cellToColOpt[cell], m.cellToBoxOpt[cell];
    forall k | 0 <= k < m.n && k != val
      ensures !w.cells[cell].isOpt[k]
    {
      assert ClearedSlot(m, w.cells, cell, val, k);
    }
    assert w.cells[cell].isOpt[val] by {
      var k :| 0 <= k < m.n && w.cells[cell].isOpt[k];
    }
    forall k | 0 <= k < m.n
      ensures w.rows[row.idx][val].isOpt[k] == (k == row.opt)
      ensures w.cols[col.idx][val].isOpt[k] == (k == col.opt)
      ensures w.boxs[box.idx][val].isOpt[k] == (k == box.opt)
    {
      assert ClearedSlot(m, w.cells, cell, val, k);
      ViewFlags(m, w, row.idx, k, val);
      ViewFlags(m, w, col.idx, k, val);
      ViewFlags(m, w, box.idx, k, val);
    }
  }

  /** Cells c and d share a row, a column or a box. */
  ghost predicate Peers(m: Maps, c: nat, d: nat)
    requires IndexMaps.Valid(m) && c < m.n * m.n && d < m.n * m.n
  {
    || m.cellToRowOpt[c].idx == m.cellToRowOpt[d].idx
    || m.cellToColOpt[c].idx == m.cellToColOpt[d].idx
    || m.cellToBoxOpt[c].idx == m.cellToBoxOpt[d].idx
  }

  /** A filled-in grid obeying the rules: every cell holds exactly one value,
      and no value occurs twice in a row, column or box. */
  ghost predicate IsSolution(m: Maps, cells: seq<Options>)
    requires IndexMaps.Valid(m) && |cells| == m.n * m.n
    requires forall c :: 0 <= c < m.n * m.n ==> |cells[c].isOpt| == m.n
  {
    && (forall c :: 0 <= c < m.n * m.n ==> cells[c].numOpts == 1)
    && (forall c, d, v ::
          0 <= c < m.n * m.n && 0 <= d < m.n * m.n && 0 <= v < m.n && c != d && Peers(m, c, d) && cells[c].isOpt[v]
          ==> !cells[d].isOpt[v])
  }

  /** When every cell is done, the candidates form a solution. */
  lemma AllDoneIsSolution(m: Maps, w: Views)
    requires Coherent(m, w)
    requires forall c :: 0 <= c < m.n * m.n ==> Done(m, w, c)
    ensures IsSolution(m, w.cells)
  {
    forall c | 0 <= c < m.n * m.n
      ensures w.cells[c].numOpts == 1
    {
      assert Done(m, w, c);
    }
    forall c, d, v | 0 <= c < m.n * m.n && 0 <= d < m.n * m.n && 0 <= v < m.n && c != d &&
        Peers(m, c, d) && w.cells[c].isOpt[v]
      ensures !w.cells[d].isOpt[v]
    {
      NoTwiceInGroup(m, w, c, d, v);
    }
  }

  lemma NoTwiceInGroup(m: Maps, w: Views, c: nat, d: nat, v: nat)
    requires Coherent(m, w) && c < m.n * m.n && d < m.n * m.n && v < m.n && c != d
    requires Done(m, w, c) && Peers(m, c, d) && w.cells[c].isOpt[v]
    ensures !w.cells[d].isOpt[v]
  {
    SameSlot(m, c, d);
    var rc, kc, bc := m.cellToRowOpt[c], m.cellToColOpt[c], m.cellToBoxOpt[c];
    var rd, kd, bd := m.cellToRowOpt[d], m.cellToColOpt[d], m.cellToBoxOpt[d];
    if rc.idx == rd.idx {
      CountOne(w.rows[rc.idx][v].isOpt, rc.opt);
    } else if kc.idx == kd.idx {
      CountOne(w.cols[kc.idx][v].isOpt, kc.opt);
    } else {
      CountOne(w.boxs[bc.idx][v].isOpt, bc.opt);
    }
  }

  // Folding boards together.

  /** Table `t` is the slot-by-slot union of tables `x` and `y`. */
  ghost predicate TableUnion(t: seq<seq<Options>>, x: seq<seq<Options>>, y: seq<seq<Options>>, n: nat)
    requires Table(x, n) && Table(y, n)
  {
    |t| == n && forall i :: 0 <= i < n ==> |t[i]| == n && forall u :: 0 <= u < n ==> t[i][u] == Union(x[i][u], y[i][u])
  }

  /** `w` is the view-by-view union of `a` and `b`. */
  ghost predicate IsUnion(m: Maps, w: Views, a: Views, b: Views)
    requires Coherent(m, a) && Coherent(m, b)
  {
    && |w.cells| == m.n * m.n
    && (forall c :: 0 <= c < m.n * m.n ==> w.cells[c] == Union(a.cells[c], b.cells[c]))
    && TableUnion(w.rows, a.rows, b.rows, m.n)
    && TableUnion(w.cols, a.cols, b.cols, m.n)
    && TableUnion(w.boxs, a.boxs, b.boxs, m.n)
  }

  lemma TableUnionLive(t: seq<seq<Options>>, x: seq<seq<Options>>, y: seq<seq<Options>>, n: nat)
    requires Table(x, n) && Table(y, n) && TableUnion(t, x, y, n)
    ensures Table(t, n)
  {
    forall i, u | 0 <= i < n && 0 <= u < n
      ensures Live(t[i][u], n)
    {
      UnionBounds(x[i][u], y[i][u], n);
    }
  }

  /** The union of two coherent states is coherent and contains both. */
  lemma UnionCoherent(m: Maps, w: Views, a: Views, b: Views)
    requires Coherent(m, a) && Coherent(m, b) && IsUnion(m, w, a, b)
    ensures Coherent(m, w)
    ensures Narrows(w.cells, a.cells) && Narrows(w.cells, b.cells)
  {
    forall c | 0 <= c < m.n * m.n
      ensures Live(w.cells[c], m.n) && Within(a.cells[c], w.cells[c]) && Within(b.cells[c], w.cells[c])
    {
      UnionBounds(a.cells[c], b.cells[c], m.n);
    }
    TableUnionLive(w.rows, a.rows, b.rows, m.n);
    TableUnionLive(w.cols, a.cols, b.cols, m.n);
    TableUnionLive(w.boxs, a.boxs, b.boxs, m.n);
    assert Shaped(m, w);
    forall c, v | 0 <= c < m.n * m.n && 0 <= v < m.n
      ensures w.rows[m.cellToRowOpt[c].idx][v].isOpt[m.cellToRowOpt[c].opt] == w.cells[c].isOpt[v]
      ensures w.cols[m.cellToColOpt[c].idx][v].isOpt[m.cellToColOpt[c].opt] == w.cells[c].isOpt[v]
      ensures w.boxs[m.cellToBoxOpt[c].idx][v].isOpt[m.cellToBoxOpt[c].opt] == w.cells[c].isOpt[v]
    {
      UnionAgreesAt(m, w, a, b, c, v);
    }
  }

  lemma UnionAgreesAt(m: Maps, w: Views, a: Views, b: Views, c: nat, v: nat)
    requires Coherent(m, a) && Coherent(m, b) && IsUnion(m, w, a, b) && Shaped(m, w)
    requires c < m.n * m.n && v < m.n
    ensures w.rows[m.cellToRowOpt[c].idx][v].isOpt[m.cellToRowOpt[c].opt] == w.cells[c].isOpt[v]
    ensures w.cols[m.cellToColOpt[c].idx][v].isOpt[m.cellToColOpt[c].opt] == w.cells[c].isOpt[v]
    ensures w.boxs[m.cellToBoxOpt[c].idx][v].isOpt[m.cellToBoxOpt[c].opt] == w.cells[c].isOpt[v]
  {
    var row, col, box := m.cellToRowOpt[c], m.cellToColOpt[c], m.cellToBoxOpt[c];
    assert w.rows[row.idx][v] == Union(a.rows[row.idx][v], b.rows[row.idx][v]);
    assert w.cols[col.idx][v] == Union(a.cols[col.idx][v], b.cols[col.idx][v]);
    assert w.boxs[box.idx][v] == Union(a.boxs[box.idx][v], b.boxs[box.idx][v]);
  }

  /** In the union of two states at rest, recomputing the set marks as "one
      candidate left" puts every cell at rest again. */
  lemma UnionFits(m: Maps, w: Views, a: Views, b: Views, isA: seq<bool>, isB: seq<bool>, isW: seq<bool>)
    requires Coherent(m, a) && Coherent(m, b) && IsUnion(m, w, a, b) && Coherent(m, w)
    requires |isA| == |isB| == |isW| == m.n * m.n
    requires AllFit(m, a, isA) && AllFit(m, b, isB)
    requires forall c :: 0 <= c < m.n * m.n ==> isW[c] == (w.cells[c].numOpts == 1)
    ensures AllFit(m, w, isW)
  {
    forall c | 0 <= c < m.n * m.n
      ensures Fits(m, w, isW, c)
    {
      assert Fits(m, a, isA, c) && Fits(m, b, isB, c);
      if isW[c] {
        UnionDone(m, w, a, b, isA, isB, c);
      }
    }
  }

  /** In the union of two states whose cells and views are at rest, with the
      set marks recomputed as "one candidate left", every view is at rest:
      a view down to one slot in the union is that same slot in both
      operands, whose cell there is then done on the same value in both. */
  lemma UnionViewsFit(m: Maps, w: Views, a: Views, b: Views, isA: seq<bool>, isB: seq<bool>, isW: seq<bool>)
    requires Coherent(m, a) && Coherent(m, b) && IsUnion(m, w, a, b) && Coherent(m, w)
    requires |isA| == |isB| == |isW| == m.n * m.n
    requires AllFit(m, a, isA) && AllFit(m, b, isB) && AllViewsFit(m, a, isA) && AllViewsFit(m, b, isB)
    requires forall c :: 0 <= c < m.n * m.n ==> isW[c] == (w.cells[c].numOpts == 1)
    ensures AllViewsFit(m, w, isW)
  {
    forall kind, c, v | 1 <= kind <= 3 && 0 <= c < m.n * m.n && 0 <= v < m.n
      ensures ViewFits(m, w, isW, kind, c, v)
    {
      if w.cells[c].isOpt[v] && GroupView(m, w, kind, c, v).numOpts == 1 {
        assert Fits(m, a, isA, c) && Fits(m, b, isB, c);
        assert ViewFits(m, a, isA, kind, c, v) && ViewFits(m, b, isB, kind, c, v);
        UnionViewFits(m, w, a, b, isA, isB, kind, c, v);
      }
    }
  }

  /** One view of UnionViewsFit. */
  lemma UnionViewFits(m: Maps, w: Views, a: Views, b: Views, isA: seq<bool>, isB: seq<bool>, kind: nat, c: nat, v: nat)
    requires Coherent(m, a) && Coherent(m, b) && IsUnion(m, w, a, b) && Coherent(m, w)
    requires |isA| == |isB| == m.n * m.n && 1 <= kind <= 3 && c < m.n * m.n && v < m.n
    requires Fits(m, a, isA, c) && Fits(m, b, isB, c)
    requires ViewFits(m, a, isA, kind, c, v) && ViewFits(m, b, isB, kind, c, v)
    requires w.cells[c].isOpt[v] && GroupView(m, w, kind, c, v).numOpts == 1
    ensures w.cells[c].numOpts == 1
  {
    var o := GroupOf(m, kind, c).opt;
    var ga, gb, gw := GroupView(m, a, kind, c, v), GroupView(m, b, kind, c, v), GroupView(m, w, kind, c, v);
    GroupViewUnion(m, w, a, b, kind, c, v);
    GroupViewOwn(m, a, kind, c, v);
    GroupViewOwn(m, b, kind, c, v);
    assert w.cells[c] == Union(a.cells[c], b.cells[c]);
    UnionSlot(ga, gb, m.n, o);
    UnionSingle(a.cells[c], b.cells[c], v, m.n);
  }

  /** In a union of boards, each group view is the union of the operands' views. */
  lemma GroupViewUnion(m: Maps, w: Views, a: Views, b: Views, kind: nat, c: nat, v: nat)
    requires Coherent(m, a) && Coherent(m, b) && IsUnion(m, w, a, b) && Coherent(m, w)
    requires 1 <= kind <= 3 && c < m.n * m.n && v < m.n
    ensures GroupView(m, w, kind, c, v) == Union(GroupView(m, a, kind, c, v), GroupView(m, b, kind, c, v))
  {
    var i := GroupOf(m, kind, c).idx;
    if kind == 1 {
      assert w.rows[i][v] == Union(a.rows[i][v], b.rows[i][v]);
    } else if kind == 2 {
      assert w.cols[i][v] == Union(a.cols[i][v], b.cols[i][v]);
    } else {
      assert w.boxs[i][v] == Union(a.boxs[i][v], b.boxs[i][v]);
    }
  }

  /** The slot of cell `c` in its own row, column or box view of `v` is the
      cell's own flag for `v`. */
  lemma GroupViewOwn(m: Maps, w: Views, kind: nat, c: nat, v: nat)
    requires Coherent(m, w) && 1 <= kind <= 3 && c < m.n * m.n && v < m.n
    ensures GroupView(m, w, kind, c, v).isOpt[GroupOf(m, kind, c).opt] == w.cells[c].isOpt[v]
  {
  }

  /** A union down to one flag, to which an operand contributes flag `o`:
      both operands are that singleton. */
  lemma UnionSlot(x: Options, y: Options, n: nat, o: nat)
    requires Live(x, n) && Live(y, n) && o < n && (x.isOpt[o] || y.isOpt[o]) && Union(x, y).numOpts == 1
    ensures x.numOpts == 1 && y.numOpts == 1 && x.isOpt[o] && y.isOpt[o]
  {
    UnionBounds(x, y, n);
    SingletonStable(x, Union(x, y), n, o);
    SingletonStable(y, Union(x, y), n, o);
  }

  lemma UnionDone(m: Maps, w: Views, a: Views, b: Views, isA: seq<bool>, isB: seq<bool>, c: nat)
    requires Coherent(m, a) && Coherent(m, b) && IsUnion(m, w, a, b) && Coherent(m, w)
    requires |isA| == |isB| == m.n * m.n && c < m.n * m.n
    requires Fits(m, a, isA, c) && Fits(m, b, isB, c)
    requires w.cells[c].numOpts == 1
    ensures Done(m, w, c)
  {
    var n := m.n;
    UnionBounds(a.cells[c], b.cells[c], n);
    var v :| 0 <= v < n && w.cells[c].isOpt[v];
    SingletonStable(a.cells[c], w.cells[c], n, v);
    SingletonStable(b.cells[c], w.cells[c], n, v);
    UnionViewsSingle(m, w, a, b, c, v);
    DoneFromViews(m, w, c, v);
  }

  lemma UnionViewsSingle(m: Maps, w: Views, a: Views, b: Views, c: nat, v: nat)
    requires Coherent(m, a) && Coherent(m, b) && IsUnion(m, w, a, b)
    requires c < m.n * m.n && v < m.n && Done(m, a, c) && Done(m, b, c)
    requires a.cells[c].isOpt[v] && b.cells[c].isOpt[v]
    ensures w.rows[m.cellToRowOpt[c].idx][v].numOpts == 1
    ensures w.cols[m.cellToColOpt[c].idx][v].numOpts == 1
    ensures w.boxs[m.cellToBoxOpt[c].idx][v].numOpts == 1
  {
    var n := m.n;
    var row, col, box := m.cellToRowOpt[c], m.cellToColOpt[c], m.cellToBoxOpt[c];
    UnionSingle(a.rows[row.idx][v], b.rows[row.idx][v], row.opt, n);
    UnionSingle(a.cols[col.idx][v], b.cols[col.idx][v], col.opt, n);
    UnionSingle(a.boxs[box.idx][v], b.boxs[box.idx][v], box.opt, n);
    assert w.rows[row.idx][v] == Union(a.rows[row.idx][v], b.rows[row.idx][v]);
    assert w.cols[col.idx][v] == Union(a.cols[col.idx][v], b.cols[col.idx][v]);
    assert w.boxs[box.idx][v] == Union(a.boxs[box.idx][v], b.boxs[box.idx][v]);
  }

  /** A single-candidate cell whose three views of that candidate are singletons is done. */
  lemma DoneFromViews(m: Maps, w: Views, c: nat, v: nat)
    requires Coherent(m, w) && c < m.n * m.n && v < m.n
    requires w.cells[c].numOpts == 1 && w.cells[c].isOpt[v]
    requires w.rows[m.cellToRowOpt[c].idx][v].numOpts == 1
    requires w.cols[m.cellToColOpt[c].idx][v].numOpts == 1
    requires w.boxs[m.cellToBoxOpt[c].idx][v].numOpts == 1
    ensures Done(m, w, c)
  {
    CountOne(w.cells[c].isOpt, v);
  }

  /** Two singletons on the same flag unite to that singleton. */
  lemma UnionSingle(x: Options, y: Options, o: nat, n: nat)
    requires WellFormed(x, n) && WellFormed(y, n) && o < n
    requires x.numOpts == 1 && y.numOpts == 1 && x.isOpt[o] && y.isOpt[o]
    ensures Union(x, y).numOpts == 1
  {
    CountOne(x.isOpt, o);
    CountOne(y.isOpt, o);
    CountOne(Union(x, y).isOpt, o);
  }

  /** Tables that agree flag by flag are equal. */
  lemma TableEqual(x: seq<seq<Options>>, y: seq<seq<Options>>, n: nat)
    requires Table(x, n) && Table(y, n)
    requires forall i, u, o :: 0 <= i < n && 0 <= u < n && 0 <= o < n ==> x[i][u].isOpt[o] == y[i][u].isOpt[o]
    ensures x == y
  {
    forall i | 0 <= i < n
      ensures x[i] == y[i]
    {
      forall u | 0 <= u < n
        ensures x[i][u] == y[i][u]
      {
        assert x[i][u].isOpt == y[i][u].isOpt;
      }
    }
  }

  /** Two states at rest with the same cells are the same state: the group
      views and the set marks are determined by the cells. */
  lemma DeterminedByCells(m: Maps, a: Views, b: Views, isA: seq<bool>, isB: seq<bool>)
    requires Coherent(m, a) && Coherent(m, b) && |isA| == |isB| == m.n * m.n
    requires AllFit(m, a, isA) && AllFit(m, b, isB)
    requires a.cells == b.cells
    ensures a == b && isA == isB
  {
    var n := m.n;
    forall i, u, o | 0 <= i < n && 0 <= u < n && 0 <= o < n
      ensures a.rows[i][u].isOpt[o] == b.rows[i][u].isOpt[o]
      ensures a.cols[i][u].isOpt[o] == b.cols[i][u].isOpt[o]
      ensures a.boxs[i][u].isOpt[o] == b.boxs[i][u].isOpt[o]
    {
      ViewFlags(m, a, i, o, u);
      ViewFlags(m, b, i, o, u);
    }
    TableEqual(a.rows, b.rows, n);
    TableEqual(a.cols, b.cols, n);
    TableEqual(a.boxs, b.boxs, n);
    forall c | 0 <= c < n * n
      ensures isA[c] == isB[c]
    {
      assert Fits(m, a, isA, c) && Fits(m, b, isB, c);
    }
  }

  // The default board.

  /** Every view of every cell and group allows everything. */
  function FullViews(m: Maps): (w: Views)
    ensures |w.cells| == m.n * m.n && forall c :: 0 <= c < m.n * m.n ==> w.cells[c] == Full(m.n)
    ensures FullTable(w.rows, m.n) && FullTable(w.cols, m.n) && FullTable(w.boxs, m.n)
  {
    var n := m.n;
    var table := seq(n, _ => seq(n, _ => Full(n)));
    Views(seq(n * n, _ => Full(n)), table, table, table)
  }

  ghost predicate FullTable(t: seq<seq<Options>>, n: nat)
  {
    |t| == n && forall i :: 0 <= i < n ==> |t[i]| == n && forall v :: 0 <= v < n ==> t[i][v] == Full(n)
  }

  lemma FullCoherent(m: Maps)
    requires IndexMaps.Valid(m)
    ensures Coherent(m, FullViews(m))
  {
    var w := FullViews(m);
    assert Live(Full(m.n), m.n);
    assert Shaped(m, w);
    forall c, v | 0 <= c < m.n * m.n && 0 <= v < m.n
      ensures w.rows[m.cellToRowOpt[c].idx][v].isOpt[m.cellToRowOpt[c].opt] == w.cells[c].isOpt[v]
      ensures w.cols[m.cellToColOpt[c].idx][v].isOpt[m.cellToColOpt[c].opt] == w.cells[c].isOpt[v]
      ensures w.boxs[m.cellToBoxOpt[c].idx][v].isOpt[m.cellToBoxOpt[c].opt] == w.cells[c].isOpt[v]
    {
    }
  }

  /** On the default board a cell is at rest exactly when its set mark says
      whether the grid has a single value. */
  lemma FullFits(m: Maps, isSet: seq<bool>)
    requires IndexMaps.Valid(m) && |isSet| == m.n * m.n
    requires forall c :: 0 <= c < m.n * m.n ==> isSet[c] == (m.n == 1)
    ensures Coherent(m, FullViews(m)) && AllFit(m, FullViews(m), isSet) && AllViewsFit(m, FullViews(m), isSet)
  {
    FullCoherent(m);
    var w := FullViews(m);
    forall kind, c, v | 1 <= kind <= 3 && 0 <= c < m.n * m.n && 0 <= v < m.n
      ensures ViewFits(m, w, isSet, kind, c, v)
    {
      assert GroupView(m, w, kind, c, v) == Full(m.n);
    }
    forall c | 0 <= c < m.n * m.n
      ensures Fits(m, w, isSet, c)
    {
      if m.n == 1 {
        assert forall v :: 0 <= v < m.n && w.cells[c].isOpt[v] ==>
          && w.rows[m.cellToRowOpt[c].idx][v] == Full(1)
          && w.cols[m.cellToColOpt[c].idx][v] == Full(1)
          && w.boxs[m.cellToBoxOpt[c].idx][v] == Full(1);
      }
    }
  }

  // Merging slot by slot, in the order of the flat index a * n + b.

  function Put(t: seq<seq<Options>>, a: nat, b: nat, x: Options): (r: seq<seq<Options>>)
    requires a < |t| && b < |t[a]|
    ensures |r| == |t| && |r[a]| == |t[a]| && r[a][b] == x
    ensures forall i, u :: 0 <= i < |t| && 0 <= u < |t[i]| && (i != a || u != b) ==> u < |r[i]| && r[i][u] == t[i][u]
  {
    var line := t[a][b := x];
    t[a := line]
  }

  /** The flat index of slot b of line a in an n x n table. */
  function Flat(n: nat, a: nat, b: nat): nat
  {
    if a == 0 then b else Flat(n, a - 1, b) + n
  }

  /** Spelt out by repeated addition, so that the loops over flat indices do
      not reason about products. */
  lemma FlatIs(n: nat, a: nat, b: nat)
    ensures Flat(n, a, b) == a * n + b
  {
    if a > 0 {
      FlatIs(n, a - 1, b);
    }
  }

  /** The slots of `t` before flat index `k` hold the union of `x` and `y`,
      the others still hold `x`. */
  ghost predicate TableMergedUpTo(t: seq<seq<Options>>, x: seq<seq<Options>>, y: seq<seq<Options>>, n: nat, k: nat)
    requires Table(x, n) && Table(y, n)
  {
    |t| == n && forall a :: 0 <= a < n ==> |t[a]| == n && forall b :: 0 <= b < n ==>
      t[a][b] == if Flat(n, a, b) < k then Union(x[a][b], y[a][b]) else x[a][b]
  }

  /** Flat index k names slot k % n of line k / n, and no other slot. */
  lemma FlatSlot(n: nat, k: nat)
    requires k < n * n
    ensures k / n < n && k % n < n && Flat(n, k / n, k % n) == k
    ensures forall a, b :: 0 <= a < n && 0 <= b < n && Flat(n, a, b) == k ==> a == k / n && b == k % n
  {
    Arith.DivBound(k, n, n);
    FlatIs(n, k / n, k % n);
    forall a, b | 0 <= a < n && 0 <= b < n && Flat(n, a, b) == k
      ensures a == k / n && b == k % n
    {
      FlatUnique(n, a, b);
    }
  }

  /** A slot's flat index gives the slot back. */
  lemma FlatUnique(n: nat, a: nat, b: nat)
    requires b < n
    ensures Flat(n, a, b) / n == a && Flat(n, a, b) % n == b
  {
    FlatIs(n, a, b);
    Arith.DivModUnique(a, b, n);
  }

  lemma TableMergeStep(t: seq<seq<Options>>, x: seq<seq<Options>>, y: seq<seq<Options>>, n: nat, k: nat)
    requires Table(x, n) && Table(y, n) && k < n * n && TableMergedUpTo(t, x, y, n, k)
    ensures k / n < n && k % n < n && t[k / n][k % n] == x[k / n][k % n]
    ensures TableMergedUpTo(Put(t, k / n, k % n, Union(x[k / n][k % n], y[k / n][k % n])), x, y, n, k + 1)
  {
    FlatSlot(n, k);
  }

  lemma TableMergeDone(t: seq<seq<Options>>, x: seq<seq<Options>>, y: seq<seq<Options>>, n: nat)
    requires Table(x, n) && Table(y, n) && TableMergedUpTo(t, x, y, n, n * n)
    ensures TableUnion(t, x, y, n)
  {
    forall a, b | 0 <= a < n && 0 <= b < n
      ensures Flat(n, a, b) < n * n
    {
      FlatIs(n, a, b);
      Arith.PackBound(a, b, n, n);
    }
  }
}
