/** How one propagation call (a removal or an assignment) relates the board
    before it to the board after it, stated on values so that the board's
    mutually recursive methods can chain the calls they make. */
module Propagation {
  import opened IndexMaps
  import opened Candidates
  import opened Coherence

  /** Set marks are only ever added. */
  ghost predicate Grows(a: seq<bool>, b: seq<bool>)
  {
    |a| == |b| && forall c :: 0 <= c < |a| && a[c] ==> b[c]
  }

  /** Between a and b candidates were only taken away and marks only added. */
  ghost predicate Advances(a: Views, isA: seq<bool>, b: Views, isB: seq<bool>)
  {
    Narrows(a.cells, b.cells) && Grows(isA, isB)
  }

  /** Every cell at rest in a, other than `skip`, is still at rest in b. */
  ghost predicate KeepsRestBut(m: Maps, a: Views, isA: seq<bool>, b: Views, isB: seq<bool>, skip: nat)
    requires Coherent(m, a) && Coherent(m, b) && |isA| == m.n * m.n && |isB| == m.n * m.n
  {
    forall d :: 0 <= d < m.n * m.n && d != skip && Fits(m, a, isA, d) ==> Fits(m, b, isB, d)
  }

  /** Every cell at rest in a is still at rest in b. */
  ghost predicate KeepsRest(m: Maps, a: Views, isA: seq<bool>, b: Views, isB: seq<bool>)
    requires Coherent(m, a) && Coherent(m, b) && |isA| == m.n * m.n && |isB| == m.n * m.n
  {
    forall d :: 0 <= d < m.n * m.n && Fits(m, a, isA, d) ==> Fits(m, b, isB, d)
  }

  /** Every view at rest in a is still at rest in b. */
  ghost predicate KeepsViews(m: Maps, a: Views, isA: seq<bool>, b: Views, isB: seq<bool>)
    requires Coherent(m, a) && Coherent(m, b) && |isA| == m.n * m.n && |isB| == m.n * m.n
  {
    forall kind, c, v :: 1 <= kind <= 3 && 0 <= c < m.n * m.n && 0 <= v < m.n && ViewFits(m, a, isA, kind, c, v) ==>
      ViewFits(m, b, isB, kind, c, v)
  }

  /** The views of `val` around `cell` of kind `from` onwards, which a removal
      of `val` from `cell` leaves to its follow-ups. */
  predicate Exempt(m: Maps, kind: nat, c: nat, v: nat, cell: nat, val: nat, from: nat)
    requires IndexMaps.Valid(m) && 1 <= kind <= 3 && c < m.n * m.n && cell < m.n * m.n
  {
    v == val && from <= kind && GroupOf(m, kind, c).idx == GroupOf(m, kind, cell).idx
  }

  /** Every view at rest in a, other than the exempt ones, is still at rest in b. */
  ghost predicate KeepsViewsBut(m: Maps, a: Views, isA: seq<bool>, b: Views, isB: seq<bool>, cell: nat, val: nat, from: nat)
    requires Coherent(m, a) && Coherent(m, b) && |isA| == m.n * m.n && |isB| == m.n * m.n && cell < m.n * m.n
  {
    forall kind, c, v ::
      (1 <= kind <= 3 && 0 <= c < m.n * m.n && 0 <= v < m.n && ViewFits(m, a, isA, kind, c, v) &&
       !Exempt(m, kind, c, v, cell, val, from)) ==> ViewFits(m, b, isB, kind, c, v)
  }

  /** One propagation call: the board advances, and unless it ended up
      impossible no cell and no view at rest was disturbed. */
  ghost predicate Step(m: Maps, a: Views, isA: seq<bool>, b: Views, isB: seq<bool>, impossible: bool)
    requires Coherent(m, a) && Coherent(m, b) && |isA| == m.n * m.n && |isB| == m.n * m.n
  {
    Advances(a, isA, b, isB) && (impossible || (KeepsRest(m, a, isA, b, isB) && KeepsViews(m, a, isA, b, isB)))
  }

  /** Like Step, but cell `skip` may be left unsettled (it is being assigned). */
  ghost predicate StepBut(m: Maps, a: Views, isA: seq<bool>, b: Views, isB: seq<bool>, impossible: bool, skip: nat)
    requires Coherent(m, a) && Coherent(m, b) && |isA| == m.n * m.n && |isB| == m.n * m.n
  {
    Advances(a, isA, b, isB) && (impossible || (KeepsRestBut(m, a, isA, b, isB, skip) && KeepsViews(m, a, isA, b, isB)))
  }

  /** Part of a removal of `val` from `cell`: like Step, but the views of
      `val` around `cell` of kind `from` onwards may still be unsettled. */
  ghost predicate StepFrom(m: Maps, a: Views, isA: seq<bool>, b: Views, isB: seq<bool>, impossible: bool,
                           cell: nat, val: nat, from: nat)
    requires Coherent(m, a) && Coherent(m, b) && |isA| == m.n * m.n && |isB| == m.n * m.n && cell < m.n * m.n
  {
    Advances(a, isA, b, isB) && (impossible || (KeepsRest(m, a, isA, b, isB) && KeepsViewsBut(m, a, isA, b, isB, cell, val, from)))
  }

  lemma KeepsViewsTrans(m: Maps, a: Views, isA: seq<bool>, b: Views, isB: seq<bool>, c: Views, isC: seq<bool>)
    requires Coherent(m, a) && Coherent(m, b) && Coherent(m, c)
    requires |isA| == m.n * m.n && |isB| == m.n * m.n && |isC| == m.n * m.n
    requires KeepsViews(m, a, isA, b, isB) && KeepsViews(m, b, isB, c, isC)
    ensures KeepsViews(m, a, isA, c, isC)
  {
    forall kind, d, v | 1 <= kind <= 3 && 0 <= d < m.n * m.n && 0 <= v < m.n && ViewFits(m, a, isA, kind, d, v)
      ensures ViewFits(m, c, isC, kind, d, v)
    {
      assert ViewFits(m, b, isB, kind, d, v);
    }
  }

  lemma AdvancesTrans(a: Views, isA: seq<bool>, b: Views, isB: seq<bool>, c: Views, isC: seq<bool>)
    requires Advances(a, isA, b, isB) && Advances(b, isB, c, isC)
    ensures Advances(a, isA, c, isC)
  {
    forall k | 0 <= k < |a.cells|
      ensures Within(c.cells[k], a.cells[k])
    {
      assert Within(c.cells[k], b.cells[k]) && Within(b.cells[k], a.cells[k]);
    }
  }

  /** Two calls in a row make one step; the board stays impossible once it is. */
  lemma StepTrans(m: Maps, a: Views, isA: seq<bool>, b: Views, isB: seq<bool>, impB: bool,
                  c: Views, isC: seq<bool>, impC: bool)
    requires Coherent(m, a) && Coherent(m, b) && Coherent(m, c)
    requires |isA| == m.n * m.n && |isB| == m.n * m.n && |isC| == m.n * m.n
    requires Step(m, a, isA, b, isB, impB) && Step(m, b, isB, c, isC, impC) && (impB ==> impC)
    ensures Step(m, a, isA, c, isC, impC)
  {
    AdvancesTrans(a, isA, b, isB, c, isC);
    if !impC {
      KeepsViewsTrans(m, a, isA, b, isB, c, isC);
    }
  }

  lemma StepButTrans(m: Maps, a: Views, isA: seq<bool>, b: Views, isB: seq<bool>, impB: bool,
                     c: Views, isC: seq<bool>, impC: bool, skip: nat)
    requires Coherent(m, a) && Coherent(m, b) && Coherent(m, c)
    requires |isA| == m.n * m.n && |isB| == m.n * m.n && |isC| == m.n * m.n
    requires StepBut(m, a, isA, b, isB, impB, skip) && Step(m, b, isB, c, isC, impC) && (impB ==> impC)
    ensures StepBut(m, a, isA, c, isC, impC, skip)
  {
    AdvancesTrans(a, isA, b, isB, c, isC);
    if !impC {
      KeepsViewsTrans(m, a, isA, b, isB, c, isC);
    }
  }

  /** A board that did not change made a step. */
  lemma StepRefl(m: Maps, w: Views, isSet: seq<bool>, impossible: bool)
    requires Coherent(m, w) && |isSet| == m.n * m.n
    ensures Step(m, w, isSet, w, isSet, impossible)
  {
  }

  /** Marking `cell` set disturbs no other cell. */
  lemma MarkStep(m: Maps, w: Views, isSet: seq<bool>, cell: nat)
    requires Coherent(m, w) && |isSet| == m.n * m.n && cell < m.n * m.n
    ensures StepBut(m, w, isSet, w, isSet[cell := true], false, cell)
  {
    forall d | 0 <= d < m.n * m.n && d != cell && Fits(m, w, isSet, d)
      ensures Fits(m, w, isSet[cell := true], d)
    {
      assert isSet[cell := true][d] == isSet[d];
    }
    forall kind, d, v | 1 <= kind <= 3 && 0 <= d < m.n * m.n && 0 <= v < m.n && ViewFits(m, w, isSet, kind, d, v)
      ensures ViewFits(m, w, isSet[cell := true], kind, d, v)
    {
      assert isSet[d] ==> isSet[cell := true][d];
    }
  }

  /** Once every other cell is undisturbed and the assigned cell is done and
      marked, the whole assignment is one step. */
  lemma CloseStep(m: Maps, a: Views, isA: seq<bool>, b: Views, isB: seq<bool>, impossible: bool, cell: nat)
    requires Coherent(m, a) && Coherent(m, b) && |isA| == m.n * m.n && |isB| == m.n * m.n && cell < m.n * m.n
    requires StepBut(m, a, isA, b, isB, impossible, cell)
    requires !impossible ==> isB[cell] && Done(m, b, cell)
    ensures Step(m, a, isA, b, isB, impossible)
  {
  }

  /** Clearing a flag of a cell that is not pinned disturbs no other cell, and
      leaves the cell itself at rest unless it just went down to one value. */
  lemma ClearKeepsRest(m: Maps, w: Views, isSet: seq<bool>, cell: nat, val: nat)
    requires Coherent(m, w) && |isSet| == m.n * m.n && cell < m.n * m.n && val < m.n
    requires w.cells[cell].isOpt[val] && w.cells[cell].numOpts > 1
    requires w.rows[m.cellToRowOpt[cell].idx][val].numOpts > 1
    requires w.cols[m.cellToColOpt[cell].idx][val].numOpts > 1
    requires w.boxs[m.cellToBoxOpt[cell].idx][val].numOpts > 1
    requires Coherent(m, ClearFlag(m, w, cell, val))
    ensures Advances(w, isSet, ClearFlag(m, w, cell, val), isSet)
    ensures KeepsRestBut(m, w, isSet, ClearFlag(m, w, cell, val), isSet, cell)
  {
    ClearFlagKeepsCoherent(m, w, cell, val);
    var r := ClearFlag(m, w, cell, val);
    forall d | 0 <= d < m.n * m.n && d != cell && Fits(m, w, isSet, d)
      ensures Fits(m, r, isSet, d)
    {
      if isSet[d] {
        assert Done(m, w, d);
      } else {
        assert r.cells[d] == w.cells[d];
      }
    }
  }

  /** A cell at rest that is not pinned is unmarked, and stays at rest while
      it keeps more than one value. */
  lemma ClearCellRest(m: Maps, w: Views, isSet: seq<bool>, cell: nat, val: nat)
    requires Coherent(m, w) && |isSet| == m.n * m.n && cell < m.n * m.n && val < m.n
    requires w.cells[cell].isOpt[val] && w.cells[cell].numOpts > 1
    requires w.rows[m.cellToRowOpt[cell].idx][val].numOpts > 1
    requires w.cols[m.cellToColOpt[cell].idx][val].numOpts > 1
    requires w.boxs[m.cellToBoxOpt[cell].idx][val].numOpts > 1
    requires Coherent(m, ClearFlag(m, w, cell, val))
    ensures Fits(m, w, isSet, cell) ==>
              !isSet[cell] && (ClearFlag(m, w, cell, val).cells[cell].numOpts > 1 ==> Fits(m, ClearFlag(m, w, cell, val), isSet, cell))
  {
  }

  /** Everything the removal needs to know about clearing one flag. */
  lemma ClearStep(m: Maps, w: Views, isSet: seq<bool>, cell: nat, val: nat)
    requires Coherent(m, w) && |isSet| == m.n * m.n && cell < m.n * m.n && val < m.n
    requires w.cells[cell].isOpt[val] && w.cells[cell].numOpts > 1
    requires w.rows[m.cellToRowOpt[cell].idx][val].numOpts > 1
    requires w.cols[m.cellToColOpt[cell].idx][val].numOpts > 1
    requires w.boxs[m.cellToBoxOpt[cell].idx][val].numOpts > 1
    ensures Coherent(m, ClearFlag(m, w, cell, val))
    ensures !ClearFlag(m, w, cell, val).cells[cell].isOpt[val]
    ensures Total(ClearFlag(m, w, cell, val).cells) < Total(w.cells)
    ensures Advances(w, isSet, ClearFlag(m, w, cell, val), isSet)
    ensures KeepsRestBut(m, w, isSet, ClearFlag(m, w, cell, val), isSet, cell)
    ensures KeepsViewsBut(m, w, isSet, ClearFlag(m, w, cell, val), isSet, cell, val, 1)
    ensures Fits(m, w, isSet, cell) ==>
              !isSet[cell] && (ClearFlag(m, w, cell, val).cells[cell].numOpts > 1 ==> Fits(m, ClearFlag(m, w, cell, val), isSet, cell))
  {
    ClearFlagKeepsCoherent(m, w, cell, val);
    ClearKeepsRest(m, w, isSet, cell, val);
    ClearCellRest(m, w, isSet, cell, val);
    ClearKeepsViews(m, w, isSet, cell, val);
  }

  /** Clearing a flag changes no view other than the three views of `val`
      around `cell`, so every other view at rest stays at rest. */
  lemma ClearKeepsViews(m: Maps, w: Views, isSet: seq<bool>, cell: nat, val: nat)
    requires Coherent(m, w) && |isSet| == m.n * m.n && cell < m.n * m.n && val < m.n
    requires w.cells[cell].isOpt[val] && w.cells[cell].numOpts > 1
    requires w.rows[m.cellToRowOpt[cell].idx][val].numOpts > 1
    requires w.cols[m.cellToColOpt[cell].idx][val].numOpts > 1
    requires w.boxs[m.cellToBoxOpt[cell].idx][val].numOpts > 1
    requires Coherent(m, ClearFlag(m, w, cell, val))
    ensures KeepsViewsBut(m, w, isSet, ClearFlag(m, w, cell, val), isSet, cell, val, 1)
  {
    var r := ClearFlag(m, w, cell, val);
    forall kind, d, v | 1 <= kind <= 3 && 0 <= d < m.n * m.n && 0 <= v < m.n && ViewFits(m, w, isSet, kind, d, v) &&
        !Exempt(m, kind, d, v, cell, val, 1)
      ensures ViewFits(m, r, isSet, kind, d, v)
    {
      ClearViewAt(m, w, r, isSet, kind, d, v, cell, val);
    }
  }

  lemma ClearViewAt(m: Maps, w: Views, r: Views, isSet: seq<bool>, kind: nat, d: nat, v: nat, cell: nat, val: nat)
    requires Coherent(m, w) && Coherent(m, r) && |isSet| == m.n * m.n
    requires 1 <= kind <= 3 && d < m.n * m.n && v < m.n && cell < m.n * m.n && val < m.n
    requires ClearedFrom(m, w, cell, val, r)
    requires ViewFits(m, w, isSet, kind, d, v) && !Exempt(m, kind, d, v, cell, val, 1)
    ensures ViewFits(m, r, isSet, kind, d, v)
  {
    var i := GroupOf(m, kind, d).idx;
    if kind == 1 {
      assert r.rows[i][v] == w.rows[i][v];
    } else if kind == 2 {
      assert r.cols[i][v] == w.cols[i][v];
    } else {
      assert r.boxs[i][v] == w.boxs[i][v];
    }
    assert r.cells[d].isOpt[v] ==> w.cells[d].isOpt[v];
  }

  /** The removal's first follow-up: if the cell went down to one value it is
      assigned that value. Together with the clearing this is one step. */
  lemma SettleCell(m: Maps, s0: Views, is0: seq<bool>, s1: Views, s2: Views, is2: seq<bool>, impossible: bool, cell: nat, val: nat)
    requires Coherent(m, s0) && Coherent(m, s1) && Coherent(m, s2)
    requires |is0| == m.n * m.n && |is2| == m.n * m.n && cell < m.n * m.n
    requires Advances(s0, is0, s1, is0) && KeepsRestBut(m, s0, is0, s1, is0, cell)
    requires KeepsViewsBut(m, s0, is0, s1, is0, cell, val, 1)
    requires Fits(m, s0, is0, cell) ==> !is0[cell] && (s1.cells[cell].numOpts > 1 ==> Fits(m, s1, is0, cell))
    requires Step(m, s1, is0, s2, is2, impossible)
    requires !impossible && s1.cells[cell].numOpts == 1 && !is0[cell] ==> is2[cell] && Done(m, s2, cell)
    ensures StepFrom(m, s0, is0, s2, is2, impossible, cell, val, 1)
  {
    AdvancesTrans(s0, is0, s1, is0, s2, is2);
    if !impossible {
      forall d | 0 <= d < m.n * m.n && Fits(m, s0, is0, d)
        ensures Fits(m, s2, is2, d)
      {
        if d != cell || s1.cells[cell].numOpts > 1 {
          assert Fits(m, s1, is0, d);
        }
      }
      KeepsViewsButTrans(m, s0, is0, s1, is0, s2, is2, cell, val, 1);
    }
  }

  lemma KeepsViewsButTrans(m: Maps, a: Views, isA: seq<bool>, b: Views, isB: seq<bool>, c: Views, isC: seq<bool>,
                           cell: nat, val: nat, from: nat)
    requires Coherent(m, a) && Coherent(m, b) && Coherent(m, c) && cell < m.n * m.n
    requires |isA| == m.n * m.n && |isB| == m.n * m.n && |isC| == m.n * m.n
    requires KeepsViewsBut(m, a, isA, b, isB, cell, val, from) && KeepsViews(m, b, isB, c, isC)
    ensures KeepsViewsBut(m, a, isA, c, isC, cell, val, from)
  {
    forall kind, d, v | 1 <= kind <= 3 && 0 <= d < m.n * m.n && 0 <= v < m.n && ViewFits(m, a, isA, kind, d, v) &&
        !Exempt(m, kind, d, v, cell, val, from)
      ensures ViewFits(m, c, isC, kind, d, v)
    {
      assert ViewFits(m, b, isB, kind, d, v);
    }
  }

  /** The follow-up of kind `from` settled its view: the removal has made one
      step on all views but those of the later kinds. */
  lemma StepFromNext(m: Maps, a: Views, isA: seq<bool>, b: Views, isB: seq<bool>, impB: bool,
                     c: Views, isC: seq<bool>, impC: bool, cell: nat, val: nat, from: nat)
    requires Coherent(m, a) && Coherent(m, b) && Coherent(m, c)
    requires |isA| == m.n * m.n && |isB| == m.n * m.n && |isC| == m.n * m.n && cell < m.n * m.n && val < m.n
    requires 1 <= from <= 3 && (impB ==> impC)
    requires StepFrom(m, a, isA, b, isB, impB, cell, val, from) && Step(m, b, isB, c, isC, impC)
    requires !impC ==> GroupFits(m, c, isC, from, cell, val)
    ensures StepFrom(m, a, isA, c, isC, impC, cell, val, from + 1)
  {
    AdvancesTrans(a, isA, b, isB, c, isC);
    if !impC {
      forall d | 0 <= d < m.n * m.n && Fits(m, a, isA, d)
        ensures Fits(m, c, isC, d)
      {
        assert Fits(m, b, isB, d);
      }
      forall kind, d, v | 1 <= kind <= 3 && 0 <= d < m.n * m.n && 0 <= v < m.n && ViewFits(m, a, isA, kind, d, v) &&
          !Exempt(m, kind, d, v, cell, val, from + 1)
        ensures ViewFits(m, c, isC, kind, d, v)
      {
        if Exempt(m, kind, d, v, cell, val, from) {
          assert kind == from && v == val;
        } else {
          assert ViewFits(m, b, isB, kind, d, v);
        }
      }
    }
  }

  /** Once every follow-up has run, the removal is one step. */
  lemma StepFromDone(m: Maps, a: Views, isA: seq<bool>, b: Views, isB: seq<bool>, imp: bool, cell: nat, val: nat)
    requires Coherent(m, a) && Coherent(m, b) && |isA| == m.n * m.n && |isB| == m.n * m.n && cell < m.n * m.n
    requires StepFrom(m, a, isA, b, isB, imp, cell, val, 4)
    ensures Step(m, a, isA, b, isB, imp)
  {
    if !imp {
      forall kind, d, v | 1 <= kind <= 3 && 0 <= d < m.n * m.n && 0 <= v < m.n && ViewFits(m, a, isA, kind, d, v)
        ensures ViewFits(m, b, isB, kind, d, v)
      {
        assert !Exempt(m, kind, d, v, cell, val, 4);
      }
    }
  }

  /** A view at rest stays at rest through a step. */
  lemma GroupFitsKept(m: Maps, a: Views, isA: seq<bool>, b: Views, isB: seq<bool>, imp: bool, kind: nat, cell: nat, val: nat)
    requires Coherent(m, a) && Coherent(m, b) && |isA| == m.n * m.n && |isB| == m.n * m.n
    requires 1 <= kind <= 3 && cell < m.n * m.n && val < m.n
    requires Step(m, a, isA, b, isB, imp) && !imp && GroupFits(m, a, isA, kind, cell, val)
    ensures GroupFits(m, b, isB, kind, cell, val)
  {
    forall d | 0 <= d < m.n * m.n && GroupOf(m, kind, d).idx == GroupOf(m, kind, cell).idx
      ensures ViewFits(m, b, isB, kind, d, val)
    {
      assert ViewFits(m, a, isA, kind, d, val);
    }
  }

  /** A flag that is clear stays clear while the board narrows. */
  lemma FlagStays(a: seq<Options>, b: seq<Options>, c: nat, v: nat)
    requires Narrows(a, b) && c < |a| && v < |a[c].isOpt| && !a[c].isOpt[v]
    ensures !b[c].isOpt[v]
  {
    assert Within(b[c], a[c]);
  }

  /** The swept slots stay swept while the board narrows. */
  lemma ClearedNarrows(m: Maps, a: seq<Options>, b: seq<Options>, cell: nat, val: nat, k: nat)
    requires IndexMaps.Valid(m) && Sized(a, m.n) && Sized(b, m.n) && cell < m.n * m.n && val < m.n
    requires ClearedBelow(m, a, cell, val, k) && Narrows(a, b)
    ensures ClearedBelow(m, b, cell, val, k)
  {
    var row, col, box := m.cellToRowOpt[cell], m.cellToColOpt[cell], m.cellToBoxOpt[cell];
    forall o | 0 <= o < k && o < m.n
      ensures o != val ==> !b[cell].isOpt[o]
      ensures o != row.opt ==> !b[m.rowOptToCell[row.idx][o]].isOpt[val]
      ensures o != col.opt ==> !b[m.colOptToCell[col.idx][o]].isOpt[val]
      ensures o != box.opt ==> !b[m.boxOptToCell[box.idx][o]].isOpt[val]
    {
      ClearedAt(m, a, cell, val, k, o);
      if o != val {
        FlagStays(a, b, cell, o);
      }
      if o != row.opt {
        FlagStays(a, b, m.rowOptToCell[row.idx][o], val);
      }
      if o != col.opt {
        FlagStays(a, b, m.colOptToCell[col.idx][o], val);
      }
      if o != box.opt {
        FlagStays(a, b, m.boxOptToCell[box.idx][o], val);
      }
    }
  }

  lemma ClearedAt(m: Maps, cells: seq<Options>, cell: nat, val: nat, k: nat, o: nat)
    requires IndexMaps.Valid(m) && Sized(cells, m.n) && cell < m.n * m.n && val < m.n
    requires ClearedBelow(m, cells, cell, val, k) && o < k && o < m.n
    ensures o != val ==> !cells[cell].isOpt[o]
    ensures o != m.cellToRowOpt[cell].opt ==> !cells[m.rowOptToCell[m.cellToRowOpt[cell].idx][o]].isOpt[val]
    ensures o != m.cellToColOpt[cell].opt ==> !cells[m.colOptToCell[m.cellToColOpt[cell].idx][o]].isOpt[val]
    ensures o != m.cellToBoxOpt[cell].opt ==> !cells[m.boxOptToCell[m.cellToBoxOpt[cell].idx][o]].isOpt[val]
  {
    assert ClearedSlot(m, cells, cell, val, o);
  }

  /** Slot k swept in the current cells extends the sweep by one. */
  lemma ClearedExtend(m: Maps, cells: seq<Options>, cell: nat, val: nat, k: nat)
    requires IndexMaps.Valid(m) && Sized(cells, m.n) && cell < m.n * m.n && val < m.n && k < m.n
    requires ClearedBelow(m, cells, cell, val, k)
    requires k != val ==> !cells[cell].isOpt[k]
    requires k != m.cellToRowOpt[cell].opt ==> !cells[m.rowOptToCell[m.cellToRowOpt[cell].idx][k]].isOpt[val]
    requires k != m.cellToColOpt[cell].opt ==> !cells[m.colOptToCell[m.cellToColOpt[cell].idx][k]].isOpt[val]
    requires k != m.cellToBoxOpt[cell].opt ==> !cells[m.boxOptToCell[m.cellToBoxOpt[cell].idx][k]].isOpt[val]
    ensures ClearedBelow(m, cells, cell, val, k + 1)
  {
  }

  /** One round of the assignment's sweep, over slot k, made by four calls
      t0 -> t1 -> t2 -> t3 -> t4 that each narrow the cells; each call
      clears one flag of the slot. */
  lemma SweepRound(m: Maps, t0: seq<Options>, t1: seq<Options>, t2: seq<Options>, t3: seq<Options>, t4: seq<Options>,
                   cell: nat, val: nat, k: nat)
    requires IndexMaps.Valid(m) && cell < m.n * m.n && val < m.n && k < m.n
    requires Sized(t0, m.n) && Sized(t1, m.n) && Sized(t2, m.n) && Sized(t3, m.n) && Sized(t4, m.n)
    requires ClearedBelow(m, t0, cell, val, k)
    requires Narrows(t0, t1) && Narrows(t1, t2) && Narrows(t2, t3) && Narrows(t3, t4)
    requires k != val ==> !t1[cell].isOpt[k]
    requires k != m.cellToRowOpt[cell].opt ==> !t2[m.rowOptToCell[m.cellToRowOpt[cell].idx][k]].isOpt[val]
    requires k != m.cellToColOpt[cell].opt ==> !t3[m.colOptToCell[m.cellToColOpt[cell].idx][k]].isOpt[val]
    requires k != m.cellToBoxOpt[cell].opt ==> !t4[m.boxOptToCell[m.cellToBoxOpt[cell].idx][k]].isOpt[val]
    ensures ClearedBelow(m, t4, cell, val, k + 1)
  {
    var row, col, box := m.cellToRowOpt[cell], m.cellToColOpt[cell], m.cellToBoxOpt[cell];
    var rc, kc := m.rowOptToCell[row.idx][k], m.colOptToCell[col.idx][k];
    ClearedNarrows(m, t0, t1, cell, val, k);
    ClearedNarrows(m, t1, t2, cell, val, k);
    ClearedNarrows(m, t2, t3, cell, val, k);
    ClearedNarrows(m, t3, t4, cell, val, k);
    if k != val {
      FlagStays(t1, t2, cell, k);
      FlagStays(t2, t3, cell, k);
      FlagStays(t3, t4, cell, k);
    }
    if k != row.opt {
      FlagStays(t2, t3, rc, val);
      FlagStays(t3, t4, rc, val);
    }
    if k != col.opt {
      FlagStays(t3, t4, kc, val);
    }
    ClearedExtend(m, t4, cell, val, k);
  }
}
