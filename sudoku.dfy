/** The board of the solver and constraint propagation: the mutual recursion
    of Remove and Set over the four views of the candidates, the set marks
    and the impossible flag. */
module Board {
  import opened IndexMaps
  import opened Candidates
  import opened Coherence
  import opened Propagation
  import opened Solutions

  /** The members of one board: the four views of the candidates, the set
      marks with their count, and whether a contradiction was met. */
  datatype State = State(w: Views, numSet: nat, isSet: seq<bool>, impossible: bool)

  /** The structural invariant, kept by every operation even in the middle of
      propagation: coherent views that never run empty, and `numSet` counting
      the set marks. */
  ghost predicate Inv(m: Maps, s: State)
  {
    Coherent(m, s.w) && |s.isSet| == m.n * m.n && s.numSet == Count(s.isSet)
  }

  /** The invariant between top-level operations: unless the board is
      impossible every cell is at rest (a set cell is done, an unset cell
      still has a choice) and so is every view (a cell that is the only
      slot left for a value in its row, column or box is set). */
  ghost predicate Settled(m: Maps, s: State)
    requires Inv(m, s)
  {
    s.impossible || (AllFit(m, s.w, s.isSet) && AllViewsFit(m, s.w, s.isSet))
  }

  /** Removing `val` from `cell` would empty the cell or one of its three
      views of `val`. */
  predicate Pinned(m: Maps, w: Views, cell: nat, val: nat)
    requires Coherent(m, w) && cell < m.n * m.n && val < m.n
  {
    || w.cells[cell].numOpts == 1
    || w.rows[m.cellToRowOpt[cell].idx][val].numOpts == 1
    || w.cols[m.cellToColOpt[cell].idx][val].numOpts == 1
    || w.boxs[m.cellToBoxOpt[cell].idx][val].numOpts == 1
  }

  /** The board is possible and still allows the grid `sol`. */
  ghost predicate Admits(m: Maps, s: State, sol: seq<nat>)
    requires IndexMaps.Valid(m)
  {
    !s.impossible && Grid(m, sol) && Allows(s.w, sol)
  }

  /** The default board: every value allowed everywhere, nothing impossible,
      and a cell counted as set exactly when the grid has a single value. */
  method Init(m: Maps) returns (s: State)
    requires IndexMaps.Valid(m)
    ensures s.w == FullViews(m) && !s.impossible
    ensures |s.isSet| == m.n * m.n && forall c :: 0 <= c < m.n * m.n ==> s.isSet[c] == (m.n == 1)
    ensures Inv(m, s) && Settled(m, s)
  {
    var w := FullViews(m);
    var isSet: seq<bool> := seq(m.n * m.n, _ => false);
    var numSet: nat := 0;
    var cell := 0;
    while cell < m.n * m.n
      invariant cell <= m.n * m.n && |isSet| == m.n * m.n
      invariant forall c :: 0 <= c < cell ==> isSet[c] == (m.n == 1)
      invariant numSet == Count(isSet[..cell])
    {
      CountMark(isSet, cell, w.cells[cell].numOpts == 1);
      isSet := isSet[cell := w.cells[cell].numOpts == 1];
      numSet := numSet + Bit(isSet[cell]);
      cell := cell + 1;
    }
    assert isSet[..m.n * m.n] == isSet;
    FullFits(m, isSet);
    s := State(w, numSet, isSet, false);
  }

  /** Folds board `b` into board `a`: an impossible `b` changes nothing, an
      impossible `a` is replaced by `b`; otherwise every candidate set becomes
      the union of the two, and the set marks are recomputed as "one
      candidate left". */
  method Merge(m: Maps, a: State, b: State) returns (r: State)
    requires Inv(m, a) && Inv(m, b)
    ensures b.impossible ==> r == a
    ensures !b.impossible ==> && !r.impossible && Inv(m, r)
                              && IsUnion(m, r.w, (if a.impossible then b else a).w, b.w)
                              && forall c :: 0 <= c < m.n * m.n ==> r.isSet[c] == (r.w.cells[c].numOpts == 1)
    ensures Inv(m, r)
    ensures Settled(m, a) && Settled(m, b) ==> Settled(m, r)
  {
    if b.impossible {
      r := a;
    } else {
      var x := if a.impossible then b.w else a.w;
      var w, isSet, numSet := FoldViews(m, x, b.w);
      r := State(w, numSet, isSet, false);
      UnionCoherent(m, r.w, x, b.w);
      if Settled(m, a) && Settled(m, b) {
        UnionFits(m, r.w, x, b.w, if a.impossible then b.isSet else a.isSet, b.isSet, isSet);
        UnionViewsFit(m, r.w, x, b.w, if a.impossible then b.isSet else a.isSet, b.isSet, isSet);
      }
    }
  }

  /** The loop of Merge: slot by slot, every candidate set of `x` united with
      that of `y`, and the set marks recomputed. */
  method FoldViews(m: Maps, x: Views, y: Views) returns (w: Views, isSet: seq<bool>, numSet: nat)
    requires Shaped(m, x) && Shaped(m, y)
    ensures |w.cells| == m.n * m.n
    ensures forall c :: 0 <= c < m.n * m.n ==> w.cells[c] == Union(x.cells[c], y.cells[c])
    ensures TableUnion(w.rows, x.rows, y.rows, m.n)
    ensures TableUnion(w.cols, x.cols, y.cols, m.n)
    ensures TableUnion(w.boxs, x.boxs, y.boxs, m.n)
    ensures |isSet| == m.n * m.n && numSet == Count(isSet)
    ensures forall c :: 0 <= c < m.n * m.n ==> isSet[c] == (w.cells[c].numOpts == 1)
  {
    w, isSet, numSet := x, seq(m.n * m.n, _ => false), 0;
    FoldedStart(m, x, y, isSet);
    var i := 0;
    while i < m.n * m.n
      invariant Folded(m, x, y, w, isSet, numSet, i)
      decreases m.n * m.n - i
    {
      w, isSet, numSet := FoldStep(m, x, y, w, isSet, numSet, i);
      i := i + 1;
    }
    FoldedDone(m, x, y, w, isSet, numSet);
  }

  /** The state of the folding loop after `i` slots: the cells and the slots
      of the three tables before `i` merged, the rest as in `x`, and the
      marks of the merged cells recomputed and counted. */
  ghost predicate Folded(m: Maps, x: Views, y: Views, w: Views, isSet: seq<bool>, numSet: nat, i: nat)
    requires Shaped(m, x) && Shaped(m, y)
  {
    var n := m.n;
    && i <= n * n && |w.cells| == n * n && |isSet| == n * n
    && (forall c :: 0 <= c < n * n ==> w.cells[c] == if c < i then Union(x.cells[c], y.cells[c]) else x.cells[c])
    && TableMergedUpTo(w.rows, x.rows, y.rows, n, i)
    && TableMergedUpTo(w.cols, x.cols, y.cols, n, i)
    && TableMergedUpTo(w.boxs, x.boxs, y.boxs, n, i)
    && (forall c :: 0 <= c < i ==> isSet[c] == (w.cells[c].numOpts == 1))
    && numSet == Count(isSet[..i])
  }

  /** Nothing is merged before the loop starts. */
  lemma FoldedStart(m: Maps, x: Views, y: Views, isSet: seq<bool>)
    requires Shaped(m, x) && Shaped(m, y) && |isSet| == m.n * m.n
    ensures Folded(m, x, y, x, isSet, 0, 0)
  {
    assert isSet[..0] == [];
  }

  /** Once every slot is merged, the loop has computed the union. */
  lemma FoldedDone(m: Maps, x: Views, y: Views, w: Views, isSet: seq<bool>, numSet: nat)
    requires Shaped(m, x) && Shaped(m, y) && Folded(m, x, y, w, isSet, numSet, m.n * m.n)
    ensures |w.cells| == m.n * m.n
    ensures forall c :: 0 <= c < m.n * m.n ==> w.cells[c] == Union(x.cells[c], y.cells[c])
    ensures TableUnion(w.rows, x.rows, y.rows, m.n)
    ensures TableUnion(w.cols, x.cols, y.cols, m.n)
    ensures TableUnion(w.boxs, x.boxs, y.boxs, m.n)
    ensures |isSet| == m.n * m.n && numSet == Count(isSet)
    ensures forall c :: 0 <= c < m.n * m.n ==> isSet[c] == (w.cells[c].numOpts == 1)
  {
    assert isSet[..m.n * m.n] == isSet;
    TableMergeDone(w.rows, x.rows, y.rows, m.n);
    TableMergeDone(w.cols, x.cols, y.cols, m.n);
    TableMergeDone(w.boxs, x.boxs, y.boxs, m.n);
  }

  /** One turn of the folding loop: cell `i` and slot `i` of each table. */
  method FoldStep(m: Maps, x: Views, y: Views, w: Views, isSet: seq<bool>, numSet: nat, i: nat)
    returns (w': Views, isSet': seq<bool>, numSet': nat)
    requires Shaped(m, x) && Shaped(m, y) && i < m.n * m.n && Folded(m, x, y, w, isSet, numSet, i)
    ensures Folded(m, x, y, w', isSet', numSet', i + 1)
  {
    var cells;
    cells, isSet', numSet' := FoldCell(w.cells, isSet, numSet, x.cells, y.cells, m.n, i);
    var rows := MergeSlot(w.rows, x.rows, y.rows, m.n, i);
    var cols := MergeSlot(w.cols, x.cols, y.cols, m.n, i);
    var boxs := MergeSlot(w.boxs, x.boxs, y.boxs, m.n, i);
    w' := Views(cells, rows, cols, boxs);
  }

  /** Merges cell `i` and recomputes its mark, extending the counted prefix. */
  method FoldCell(cells: seq<Options>, isSet: seq<bool>, numSet: nat, x: seq<Options>, y: seq<Options>, n: nat, i: nat)
    returns (cells': seq<Options>, isSet': seq<bool>, numSet': nat)
    requires i < n * n && |cells| == |x| == |y| == |isSet| == n * n && Sized(x, n) && Sized(y, n)
    requires forall c :: 0 <= c < n * n ==> cells[c] == if c < i then Union(x[c], y[c]) else x[c]
    requires forall c :: 0 <= c < i ==> isSet[c] == (cells[c].numOpts == 1)
    requires numSet == Count(isSet[..i])
    ensures |cells'| == |isSet'| == n * n
    ensures forall c :: 0 <= c < n * n ==> cells'[c] == if c < i + 1 then Union(x[c], y[c]) else x[c]
    ensures forall c :: 0 <= c < i + 1 ==> isSet'[c] == (cells'[c].numOpts == 1)
    ensures numSet' == Count(isSet'[..i + 1])
  {
    var merged := Candidates.Merge(cells[i], y[i]);
    cells' := cells[i := merged];
    CountMark(isSet, i, merged.numOpts == 1);
    isSet' := isSet[i := merged.numOpts == 1];
    numSet' := numSet + Bit(isSet'[i]);
  }

  /** Merges slot `i` of a table (row i / n, column i % n), the next one in
      the order of the folding loop. */
  method MergeSlot(t: seq<seq<Options>>, x: seq<seq<Options>>, y: seq<seq<Options>>, n: nat, i: nat)
    returns (r: seq<seq<Options>>)
    requires Table(x, n) && Table(y, n) && i < n * n && TableMergedUpTo(t, x, y, n, i)
    ensures TableMergedUpTo(r, x, y, n, i + 1)
  {
    TableMergeStep(t, x, y, n, i);
    var i1, i2 := i / n, i % n;
    var merged := Candidates.Merge(t[i1][i2], y[i1][i2]);
    r := Put(t, i1, i2, merged);
  }

  /** Takes `val` out of `cell`, or marks the board impossible when that
      would empty the cell or one of its views, then assigns whatever the
      removal pinned down. */
  method Remove(m: Maps, s: State, cell: nat, val: nat, ghost sol: seq<nat>) returns (t: State)
    requires Inv(m, s) && cell < m.n * m.n && val < m.n
    requires s.impossible || s.w.cells[cell].isOpt[val]
    decreases Total(s.w.cells), 0
    ensures Inv(m, t)
    ensures s.impossible ==> t == s
    ensures !s.impossible && Pinned(m, s.w, cell, val) ==> t == s.(impossible := true)
    ensures t.impossible || !t.w.cells[cell].isOpt[val]
    ensures Step(m, s.w, s.isSet, t.w, t.isSet, t.impossible)
    ensures !t.impossible ==> forall kind :: 1 <= kind <= 3 ==> GroupFits(m, t.w, t.isSet, kind, cell, val)
    ensures Total(t.w.cells) <= Total(s.w.cells)
    ensures Admits(m, s, sol) && !Puts(sol, cell, val) ==> Admits(m, t, sol)
  {
    t := s;
    if Admits(m, s, sol) && sol[cell] != val {
      NotPinned(m, s.w, cell, val, sol);
    }
    if !s.impossible {
      if Pinned(m, s.w, cell, val) {
        t := s.(impossible := true);
      } else {
        ClearStep(m, s.w, s.isSet, cell, val);
        t := s.(w := ClearFlag(m, s.w, cell, val));
        if Admits(m, s, sol) && sol[cell] != val {
          ClearedAllows(m, s.w, cell, val, t.w, sol);
        }
        t := RemoveCascades(m, t, cell, val, s, sol);
        UnpinnedFits(m, s, t, cell, val);
      }
    }
  }

  /** After a removal that was not pinned, every view of the removed value
      around the cell is at rest: each had two slots before, so any view now
      down to one slot went there through steps, which keep views at rest. */
  lemma UnpinnedFits(m: Maps, s: State, t: State, cell: nat, val: nat)
    requires Inv(m, s) && Inv(m, t) && cell < m.n * m.n && val < m.n
    requires !s.impossible && !Pinned(m, s.w, cell, val)
    requires Step(m, s.w, s.isSet, t.w, t.isSet, t.impossible)
    ensures !t.impossible ==> forall kind :: 1 <= kind <= 3 ==> GroupFits(m, t.w, t.isSet, kind, cell, val)
  {
    if !t.impossible {
      forall kind | 1 <= kind <= 3
        ensures GroupFits(m, t.w, t.isSet, kind, cell, val)
      {
        UnpinnedView(m, s.w, kind, cell, val);
        WideViewFits(m, s.w, s.isSet, kind, cell, val);
        GroupFitsKept(m, s.w, s.isSet, t.w, t.isSet, t.impossible, kind, cell, val);
      }
    }
  }

  /** A removal that is not pinned leaves two slots in each view of the value. */
  lemma UnpinnedView(m: Maps, w: Views, kind: nat, cell: nat, val: nat)
    requires Coherent(m, w) && 1 <= kind <= 3 && cell < m.n * m.n && val < m.n && !Pinned(m, w, cell, val)
    ensures GroupView(m, w, kind, cell, val).numOpts > 1
  {
  }

  /** The follow-ups of a removal (the cell, then the row, column and box
      views of `val`): whichever went down to one candidate is assigned it. */
  method RemoveCascades(m: Maps, t: State, cell: nat, val: nat, ghost s: State, ghost sol: seq<nat>) returns (u: State)
    requires Inv(m, t) && Inv(m, s) && cell < m.n * m.n && val < m.n && !t.impossible && t.isSet == s.isSet
    requires !t.w.cells[cell].isOpt[val] && Total(t.w.cells) < Total(s.w.cells)
    requires Advances(s.w, s.isSet, t.w, t.isSet) && KeepsRestBut(m, s.w, s.isSet, t.w, t.isSet, cell)
    requires KeepsViewsBut(m, s.w, s.isSet, t.w, t.isSet, cell, val, 1)
    requires Fits(m, s.w, s.isSet, cell) ==> !t.isSet[cell] && (t.w.cells[cell].numOpts > 1 ==> Fits(m, t.w, t.isSet, cell))
    decreases Total(t.w.cells), 6
    ensures Inv(m, u)
    ensures u.impossible || !u.w.cells[cell].isOpt[val]
    ensures Step(m, s.w, s.isSet, u.w, u.isSet, u.impossible)
    ensures Total(u.w.cells) < Total(s.w.cells)
    ensures Admits(m, t, sol) ==> Admits(m, u, sol)
  {
    u := SettleOwn(m, t, cell, val, s, sol);
    u := SettleView(m, u, 1, cell, val, s, sol);
    u := SettleView(m, u, 2, cell, val, s, sol);
    u := SettleView(m, u, 3, cell, val, s, sol);
    StepFromDone(m, s.w, s.isSet, u.w, u.isSet, u.impossible, cell, val);
  }

  /** The first follow-up of a removal of `val` from `cell`: when the cell
      went down to one candidate, it is assigned that candidate. */
  method SettleOwn(m: Maps, t: State, cell: nat, val: nat, ghost s: State, ghost sol: seq<nat>) returns (u: State)
    requires Inv(m, t) && Inv(m, s) && cell < m.n * m.n && val < m.n && !t.impossible && t.isSet == s.isSet
    requires !t.w.cells[cell].isOpt[val]
    requires Advances(s.w, s.isSet, t.w, t.isSet) && KeepsRestBut(m, s.w, s.isSet, t.w, t.isSet, cell)
    requires KeepsViewsBut(m, s.w, s.isSet, t.w, t.isSet, cell, val, 1)
    requires Fits(m, s.w, s.isSet, cell) ==> !t.isSet[cell] && (t.w.cells[cell].numOpts > 1 ==> Fits(m, t.w, t.isSet, cell))
    decreases Total(t.w.cells), 5
    ensures Inv(m, u)
    ensures u.impossible || !u.w.cells[cell].isOpt[val]
    ensures !u.impossible && t.w.cells[cell].numOpts == 1 ==> u.isSet[cell]
    ensures StepFrom(m, s.w, s.isSet, u.w, u.isSet, u.impossible, cell, val, 1)
    ensures Total(u.w.cells) <= Total(t.w.cells)
    ensures Admits(m, t, sol) ==> Admits(m, u, sol)
  {
    u := t;
    if u.w.cells[cell].numOpts == 1 {
      var v := Get(u.w.cells[cell]);
      if Admits(m, t, sol) {
        assert t.w.cells[cell].isOpt[sol[cell]];
      }
      u := Set(m, u, cell, v, sol);
      FlagStays(t.w.cells, u.w.cells, cell, val);
    } else {
      StepRefl(m, t.w, t.isSet, false);
    }
    SettleCell(m, s.w, s.isSet, t.w, u.w, u.isSet, u.impossible, cell, val);
  }

  /** Flag `o` of a group view is the flag for `val` of the cell at slot `o`. */
  lemma GroupFlag(m: Maps, w: Views, kind: nat, cell: nat, val: nat, o: nat)
    requires Coherent(m, w) && 1 <= kind <= 3 && cell < m.n * m.n && val < m.n && o < m.n
    ensures GroupView(m, w, kind, cell, val).isOpt[o] == w.cells[GroupCell(m, kind, cell, o)].isOpt[val]
  {
    var i := GroupOf(m, kind, cell).idx;
    ViewFlags(m, w, i, o, val);
    if kind == 1 {
      assert GroupCell(m, kind, cell, o) == m.rowOptToCell[i][o];
    } else if kind == 2 {
      assert GroupCell(m, kind, cell, o) == m.colOptToCell[i][o];
    } else {
      assert GroupCell(m, kind, cell, o) == m.boxOptToCell[i][o];
    }
  }

  /** One follow-up of a removal of `val` from `cell`: when the row, column or
      box view of `val` went down to one slot, the cell at that slot is
      assigned `val`, so that view is at rest; the step made since `s` and
      the cleared flag are kept. */
  method SettleView(m: Maps, u: State, kind: nat, cell: nat, val: nat, ghost s: State, ghost sol: seq<nat>)
    returns (r: State)
    requires Inv(m, u) && Inv(m, s) && 1 <= kind <= 3 && cell < m.n * m.n && val < m.n
    requires u.impossible || !u.w.cells[cell].isOpt[val]
    requires StepFrom(m, s.w, s.isSet, u.w, u.isSet, u.impossible, cell, val, kind)
    decreases Total(u.w.cells), 5
    ensures Inv(m, r)
    ensures u.impossible ==> r == u
    ensures r.impossible || !r.w.cells[cell].isOpt[val]
    ensures !r.impossible && GroupView(m, u.w, kind, cell, val).numOpts == 1 ==>
              forall o :: 0 <= o < m.n && GroupView(m, u.w, kind, cell, val).isOpt[o] ==> r.isSet[GroupCell(m, kind, cell, o)]
    ensures !r.impossible ==> GroupFits(m, r.w, r.isSet, kind, cell, val)
    ensures StepFrom(m, s.w, s.isSet, r.w, r.isSet, r.impossible, cell, val, kind + 1)
    ensures Total(r.w.cells) <= Total(u.w.cells)
    ensures Admits(m, u, sol) ==> Admits(m, r, sol)
  {
    r := u;
    var view := GroupView(m, u.w, kind, cell, val);
    if view.numOpts == 1 {
      var o := Get(view);
      GroupFlag(m, u.w, kind, cell, val, o);
      if Admits(m, u, sol) {
        SoleSlot(m, u.w, kind, cell, val, o, sol);
      }
      r := Set(m, u, GroupCell(m, kind, cell, o), val, sol);
      if !u.impossible {
        FlagStays(u.w.cells, r.w.cells, cell, val);
        if !r.impossible {
          SoleSlotMarked(m, u.w, r.w, r.isSet, kind, cell, val, o);
        }
      }
    } else {
      StepRefl(m, u.w, u.isSet, u.impossible);
      if !u.impossible {
        WideViewFits(m, u.w, u.isSet, kind, cell, val);
      }
    }
    StepFromNext(m, s.w, s.isSet, u.w, u.isSet, u.impossible, r.w, r.isSet, r.impossible, cell, val, kind);
  }

  /** A view down to slot `o`, with the cell at that slot set: after any
      narrowing the view is at rest, since no other cell of the group can
      still allow the value. */
  lemma SoleSlotMarked(m: Maps, u: Views, r: Views, isR: seq<bool>, kind: nat, cell: nat, val: nat, o: nat)
    requires Coherent(m, u) && Coherent(m, r) && |isR| == m.n * m.n
    requires 1 <= kind <= 3 && cell < m.n * m.n && val < m.n && o < m.n
    requires Narrows(u.cells, r.cells)
    requires forall k :: 0 <= k < m.n && k != o ==> !GroupView(m, u, kind, cell, val).isOpt[k]
    requires isR[GroupCell(m, kind, cell, o)]
    ensures GroupFits(m, r, isR, kind, cell, val)
  {
    forall c | 0 <= c < m.n * m.n && GroupOf(m, kind, c).idx == GroupOf(m, kind, cell).idx
      ensures ViewFits(m, r, isR, kind, c, val)
    {
      if r.cells[c].isOpt[val] {
        assert Within(r.cells[c], u.cells[c]);
        SoleSlotAt(m, u, kind, cell, val, o, c);
      }
    }
  }

  /** A cell of the group that allows the value of a view down to slot `o`
      is the cell at slot `o`. */
  lemma SoleSlotAt(m: Maps, u: Views, kind: nat, cell: nat, val: nat, o: nat, c: nat)
    requires Coherent(m, u) && 1 <= kind <= 3 && cell < m.n * m.n && val < m.n && o < m.n && c < m.n * m.n
    requires forall k :: 0 <= k < m.n && k != o ==> !GroupView(m, u, kind, cell, val).isOpt[k]
    requires GroupOf(m, kind, c).idx == GroupOf(m, kind, cell).idx && u.cells[c].isOpt[val]
    ensures c == GroupCell(m, kind, cell, o)
  {
    var p := GroupOf(m, kind, c).opt;
    GroupPeer(m, kind, c, p);
    GroupFlag(m, u, kind, c, val, p);
    assert GroupView(m, u, kind, c, val) == GroupView(m, u, kind, cell, val);
    assert GroupCell(m, kind, c, o) == GroupCell(m, kind, cell, o);
  }

  /** A view that keeps two slots is at rest, whatever the marks. */
  lemma WideViewFits(m: Maps, w: Views, isSet: seq<bool>, kind: nat, cell: nat, val: nat)
    requires Coherent(m, w) && |isSet| == m.n * m.n && 1 <= kind <= 3 && cell < m.n * m.n && val < m.n
    requires GroupView(m, w, kind, cell, val).numOpts != 1
    ensures GroupFits(m, w, isSet, kind, cell, val)
  {
    forall c | 0 <= c < m.n * m.n && GroupOf(m, kind, c).idx == GroupOf(m, kind, cell).idx
      ensures ViewFits(m, w, isSet, kind, c, val)
    {
      assert GroupView(m, w, kind, c, val) == GroupView(m, w, kind, cell, val);
    }
  }

  /** Assigns `val` to `cell`: marks the cell set, then sweeps every slot,
      removing the cell's other values and `val` from every other cell of
      its row, column and box. */
  method Set(m: Maps, s: State, cell: nat, val: nat, ghost sol: seq<nat>) returns (t: State)
    requires Inv(m, s) && cell < m.n * m.n && val < m.n
    requires s.impossible || s.w.cells[cell].isOpt[val]
    decreases Total(s.w.cells), 4
    ensures Inv(m, t)
    ensures s.impossible || s.isSet[cell] ==> t == s
    ensures !s.impossible ==> t.isSet[cell]
    ensures !t.impossible && !s.isSet[cell] ==> Done(m, t.w, cell) && t.w.cells[cell].isOpt[val]
    ensures Step(m, s.w, s.isSet, t.w, t.isSet, t.impossible)
    ensures Total(t.w.cells) <= Total(s.w.cells)
    ensures Admits(m, s, sol) && Puts(sol, cell, val) ==> Admits(m, t, sol)
  {
    t := s;
    if !s.impossible && !s.isSet[cell] {
      CountUpdate(s.isSet, cell, true);
      t := s.(numSet := s.numSet + 1, isSet := s.isSet[cell := true]);
      MarkStep(m, s.w, s.isSet, cell);
      t := Sweep(m, t, cell, val, s, sol);
      if !t.impossible {
        DoneWhenCleared(m, t.w, cell, val);
      }
      CloseStep(m, s.w, s.isSet, t.w, t.isSet, t.impossible, cell);
    }
  }

  /** The sweep of an assignment, slot by slot; cell `cell` is already
      marked set on top of `s`. */
  method Sweep(m: Maps, u: State, cell: nat, val: nat, ghost s: State, ghost sol: seq<nat>) returns (t: State)
    requires Inv(m, u) && Inv(m, s) && cell < m.n * m.n && val < m.n && u.isSet[cell]
    requires StepBut(m, s.w, s.isSet, u.w, u.isSet, u.impossible, cell)
    requires Total(u.w.cells) <= Total(s.w.cells)
    decreases Total(u.w.cells), 3
    ensures Inv(m, t) && t.isSet[cell]
    ensures StepBut(m, s.w, s.isSet, t.w, t.isSet, t.impossible, cell)
    ensures Total(t.w.cells) <= Total(u.w.cells)
    ensures t.impossible || ClearedBelow(m, t.w.cells, cell, val, m.n)
    ensures Admits(m, u, sol) && Puts(sol, cell, val) ==> Admits(m, t, sol)
  {
    t := u;
    var opt := 0;
    while opt < m.n
      invariant opt <= m.n && Inv(m, t) && t.isSet[cell]
      invariant StepBut(m, s.w, s.isSet, t.w, t.isSet, t.impossible, cell)
      invariant Total(t.w.cells) <= Total(u.w.cells)
      invariant t.impossible || ClearedBelow(m, t.w.cells, cell, val, opt)
      invariant Admits(m, u, sol) && Puts(sol, cell, val) ==> Admits(m, t, sol)
    {
      t := SweepSlot(m, t, cell, val, opt, s, sol);
      opt := opt + 1;
    }
  }

  /** One round of an assignment's sweep, over slot `opt`: the cell loses
      value `opt` and the cell at slot `opt` of its row, column and box loses
      `val` (each unless it is the assigned pair itself or already gone). */
  method SweepSlot(m: Maps, t: State, cell: nat, val: nat, opt: nat, ghost s: State, ghost sol: seq<nat>)
    returns (r: State)
    requires Inv(m, t) && Inv(m, s) && cell < m.n * m.n && val < m.n && opt < m.n && t.isSet[cell]
    requires StepBut(m, s.w, s.isSet, t.w, t.isSet, t.impossible, cell)
    decreases Total(t.w.cells), 2
    ensures Inv(m, r) && r.isSet[cell]
    ensures t.impossible ==> r == t
    ensures StepBut(m, s.w, s.isSet, r.w, r.isSet, r.impossible, cell)
    ensures Total(r.w.cells) <= Total(t.w.cells)
    ensures !r.impossible && ClearedBelow(m, t.w.cells, cell, val, opt) ==> ClearedBelow(m, r.w.cells, cell, val, opt + 1)
    ensures Admits(m, t, sol) && Puts(sol, cell, val) ==> Admits(m, r, sol)
  {
    r := t;
    StepRefl(m, t.w, t.isSet, t.impossible);
    if opt != val && r.w.cells[cell].isOpt[opt] {
      r := Remove(m, r, cell, opt, sol);
    }
    ghost var t1 := r;
    r := SweepView(m, r, 1, cell, val, opt, t, sol);
    ghost var t2 := r;
    r := SweepView(m, r, 2, cell, val, opt, t, sol);
    ghost var t3 := r;
    r := SweepView(m, r, 3, cell, val, opt, t, sol);
    if !r.impossible && ClearedBelow(m, t.w.cells, cell, val, opt) {
      SweepRound(m, t.w.cells, t1.w.cells, t2.w.cells, t3.w.cells, r.w.cells, cell, val, opt);
    }
    StepButTrans(m, s.w, s.isSet, t.w, t.isSet, t.impossible, r.w, r.isSet, r.impossible, cell);
  }

  /** Part of a sweep: unless `opt` is the slot of `cell` itself, the cell at
      slot `opt` of the row, column or box of `cell` loses `val`; the step
      made since `s` is kept. */
  method SweepView(m: Maps, u: State, kind: nat, cell: nat, val: nat, opt: nat, ghost s: State, ghost sol: seq<nat>)
    returns (r: State)
    requires Inv(m, u) && Inv(m, s) && 1 <= kind <= 3 && cell < m.n * m.n && val < m.n && opt < m.n
    requires Step(m, s.w, s.isSet, u.w, u.isSet, u.impossible)
    decreases Total(u.w.cells), 1
    ensures Inv(m, r)
    ensures u.impossible ==> r == u
    ensures Advances(u.w, u.isSet, r.w, r.isSet) && Step(m, s.w, s.isSet, r.w, r.isSet, r.impossible)
    ensures Total(r.w.cells) <= Total(u.w.cells)
    ensures r.impossible || opt == GroupOf(m, kind, cell).opt || !r.w.cells[GroupCell(m, kind, cell, opt)].isOpt[val]
    ensures Admits(m, u, sol) && Puts(sol, cell, val) ==> Admits(m, r, sol)
  {
    r := u;
    GroupFlag(m, u.w, kind, cell, val, opt);
    if opt != GroupOf(m, kind, cell).opt && GroupView(m, u.w, kind, cell, val).isOpt[opt] {
      if Admits(m, u, sol) && sol[cell] == val {
        GroupPeer(m, kind, cell, opt);
      }
      r := Remove(m, u, GroupCell(m, kind, cell, opt), val, sol);
      StepTrans(m, s.w, s.isSet, u.w, u.isSet, u.impossible, r.w, r.isSet, r.impossible);
    }
  }

  // Solutions survive propagation.

  /** Every value of a grid has a slot in the row, column and box of `cell`. */
  lemma PlacedIn(m: Maps, sol: seq<nat>, kind: nat, cell: nat, v: nat) returns (o: nat)
    requires IndexMaps.Valid(m) && Grid(m, sol) && 1 <= kind <= 3 && cell < m.n * m.n && v < m.n
    ensures o < m.n && sol[GroupCell(m, kind, cell, o)] == v
  {
    var i := GroupOf(m, kind, cell).idx;
    assert Placed(m, sol, i, v);
    if kind == 1 {
      o :| 0 <= o < m.n && sol[m.rowOptToCell[i][o]] == v;
    } else if kind == 2 {
      o :| 0 <= o < m.n && sol[m.colOptToCell[i][o]] == v;
    } else {
      o :| 0 <= o < m.n && sol[m.boxOptToCell[i][o]] == v;
    }
  }

  /** The slot of `cell` in its own row, column or box holds `cell`; any
      other slot holds a different cell of the same group. */
  lemma GroupPeer(m: Maps, kind: nat, cell: nat, o: nat)
    requires IndexMaps.Valid(m) && 1 <= kind <= 3 && cell < m.n * m.n && o < m.n
    ensures GroupCell(m, kind, cell, GroupOf(m, kind, cell).opt) == cell
    ensures o != GroupOf(m, kind, cell).opt ==>
              GroupCell(m, kind, cell, o) != cell && Peers(m, cell, GroupCell(m, kind, cell, o))
  {
    var i := GroupOf(m, kind, cell).idx;
    var d := GroupCell(m, kind, cell, o);
    if kind == 1 {
      assert m.cellToRowOpt[d] == IdxOpt(i, o);
    } else if kind == 2 {
      assert m.cellToColOpt[d] == IdxOpt(i, o);
    } else {
      assert m.cellToBoxOpt[d] == IdxOpt(i, o);
    }
  }

  /** A view of `val` in a group of `cell` that allows a grid keeps the slot
      where the grid puts `val`. */
  lemma GridSlot(m: Maps, w: Views, kind: nat, cell: nat, val: nat, sol: seq<nat>) returns (o: nat)
    requires Coherent(m, w) && Grid(m, sol) && Allows(w, sol) && 1 <= kind <= 3 && cell < m.n * m.n && val < m.n
    ensures o < m.n && sol[GroupCell(m, kind, cell, o)] == val && GroupView(m, w, kind, cell, val).isOpt[o]
  {
    o := PlacedIn(m, sol, kind, cell, val);
    GroupFlag(m, w, kind, cell, val, o);
  }

  /** When a view that allows a grid is down to one slot, that slot is where
      the grid puts the value. */
  lemma SoleSlot(m: Maps, w: Views, kind: nat, cell: nat, val: nat, o: nat, sol: seq<nat>)
    requires Coherent(m, w) && Grid(m, sol) && Allows(w, sol) && 1 <= kind <= 3 && cell < m.n * m.n && val < m.n
    requires o < m.n && forall k :: 0 <= k < m.n && k != o ==> !GroupView(m, w, kind, cell, val).isOpt[k]
    ensures sol[GroupCell(m, kind, cell, o)] == val
  {
    var p := GridSlot(m, w, kind, cell, val, sol);
  }

  /** A view of `val` in a group of `cell` that allows a grid which puts
      another value in `cell` keeps two slots. */
  lemma ViewOpen(m: Maps, w: Views, kind: nat, cell: nat, val: nat, sol: seq<nat>)
    requires Coherent(m, w) && Grid(m, sol) && Allows(w, sol) && 1 <= kind <= 3 && cell < m.n * m.n && val < m.n
    requires w.cells[cell].isOpt[val] && sol[cell] != val
    ensures GroupView(m, w, kind, cell, val).numOpts > 1
  {
    var o := GridSlot(m, w, kind, cell, val, sol);
    var own := GroupOf(m, kind, cell).opt;
    GroupPeer(m, kind, cell, o);
    GroupFlag(m, w, kind, cell, val, own);
    TwoFlags(GroupView(m, w, kind, cell, val), o, own);
  }

  /** Removing a value that a grid allowed by the board does not use is
      never pinned: the cell keeps the grid's value, and each view of the
      removed value keeps the slot where the grid puts it. */
  lemma NotPinned(m: Maps, w: Views, cell: nat, val: nat, sol: seq<nat>)
    requires Coherent(m, w) && cell < m.n * m.n && val < m.n && w.cells[cell].isOpt[val]
    requires Grid(m, sol) && Allows(w, sol) && sol[cell] != val
    ensures !Pinned(m, w, cell, val)
  {
    TwoFlags(w.cells[cell], val, sol[cell]);
    ViewOpen(m, w, 1, cell, val, sol);
    ViewOpen(m, w, 2, cell, val, sol);
    ViewOpen(m, w, 3, cell, val, sol);
  }
}
