/** The search on top of propagation: addressing the 4 * n * n units of a
    board, case analysis over the narrow units, backtracking on the narrowest
    one, and reading a puzzle in. */
module Search {
  import opened IndexMaps
  import opened Candidates
  import opened Coherence
  import opened Propagation
  import opened Board
  import opened Solutions

  // Units.

  /** The candidate set of unit `typeIdx`: the candidates of a cell, or the
      view of one value in one row, column or box. */
  function TypeIdxToOpts(m: Maps, w: Views, typeIdx: nat): (o: Options)
    requires Coherent(m, w) && typeIdx < 4 * (m.n * m.n)
    ensures Live(o, m.n)
    ensures UnitOf(m.n, typeIdx).kind == 0 ==> o == w.cells[UnitOf(m.n, typeIdx).idx]
  {
    var u := UnitOf(m.n, typeIdx);
    if u.kind == 0 then w.cells[u.idx]
    else if u.kind == 1 then w.rows[u.idx1][u.idx2]
    else if u.kind == 2 then w.cols[u.idx1][u.idx2]
    else w.boxs[u.idx1][u.idx2]
  }

  /** Candidate `opt` of a unit is allowed exactly when the (cell, value)
      pair it stands for is allowed in the cell itself. */
  lemma UnitFlags(m: Maps, w: Views, typeIdx: nat, opt: nat)
    requires Coherent(m, w) && typeIdx < 4 * (m.n * m.n) && opt < m.n
    ensures var cv := TypeIdxOptToCellVal(m, typeIdx, opt);
      TypeIdxToOpts(m, w, typeIdx).isOpt[opt] == w.cells[cv.idx].isOpt[cv.opt]
  {
    var u := UnitOf(m.n, typeIdx);
    if u.kind != 0 {
      ViewFlags(m, w, u.idx1, opt, u.idx2);
    }
  }

  /** On a board at rest, an open unit (more than one candidate) only names
      cells that are not set yet and still have a choice. */
  lemma OpenUnitCell(m: Maps, s: State, typeIdx: nat, opt: nat)
    requires Inv(m, s) && !s.impossible && AllFit(m, s.w, s.isSet)
    requires typeIdx < 4 * (m.n * m.n) && opt < m.n
    requires TypeIdxToOpts(m, s.w, typeIdx).numOpts > 1 && TypeIdxToOpts(m, s.w, typeIdx).isOpt[opt]
    ensures var cv := TypeIdxOptToCellVal(m, typeIdx, opt);
      !s.isSet[cv.idx] && s.w.cells[cv.idx].numOpts > 1 && s.w.cells[cv.idx].isOpt[cv.opt]
  {
    var cv := TypeIdxOptToCellVal(m, typeIdx, opt);
    UnitFlags(m, s.w, typeIdx, opt);
    assert Fits(m, s.w, s.isSet, cv.idx);
  }

  /** Candidate `opt` of unit `typeIdx` is the (cell, value) pair that the
      grid `sol` uses. */
  ghost predicate GridCase(m: Maps, sol: seq<nat>, typeIdx: nat, opt: nat)
    requires IndexMaps.Valid(m) && typeIdx < 4 * (m.n * m.n) && opt < m.n
  {
    var cv := TypeIdxOptToCellVal(m, typeIdx, opt);
    Puts(sol, cv.idx, cv.opt)
  }

  /** Every unit of a board that allows a grid has, among its candidates,
      the one the grid uses. */
  lemma GridCaseOf(m: Maps, w: Views, sol: seq<nat>, typeIdx: nat) returns (opt: nat)
    requires Coherent(m, w) && Grid(m, sol) && Allows(w, sol) && typeIdx < 4 * (m.n * m.n)
    ensures opt < m.n && GridCase(m, sol, typeIdx, opt) && TypeIdxToOpts(m, w, typeIdx).isOpt[opt]
  {
    var u := UnitOf(m.n, typeIdx);
    if u.kind == 0 {
      opt := sol[u.idx];
    } else {
      assert Placed(m, sol, u.idx1, u.idx2);
      if u.kind == 1 {
        opt :| 0 <= opt < m.n && sol[m.rowOptToCell[u.idx1][opt]] == u.idx2;
      } else if u.kind == 2 {
        opt :| 0 <= opt < m.n && sol[m.colOptToCell[u.idx1][opt]] == u.idx2;
      } else {
        opt :| 0 <= opt < m.n && sol[m.boxOptToCell[u.idx1][opt]] == u.idx2;
      }
    }
    UnitFlags(m, w, typeIdx, opt);
  }

  // The search measure.

  /** Decreases with every change the search makes: an impossible board is
      at the bottom, and otherwise fewer candidates, or the same candidates
      with every cell set, is lower. */
  function Measure(m: Maps, s: State): nat
  {
    if s.impossible then 0 else 1 + 2 * Total(s.w.cells) + (if s.numSet == m.n * m.n then 0 else 1)
  }

  /** Fewer candidates (or as many) and no cell unset that was set: the
      measure does not grow, and it drops when the board went from unsolved
      to solved; an impossible board is at the bottom. */
  lemma MeasureNoMore(m: Maps, s: State, t: State)
    requires t.impossible || (!s.impossible && Total(t.w.cells) <= Total(s.w.cells))
    requires !t.impossible && s.numSet == m.n * m.n ==> t.numSet == m.n * m.n
    ensures Measure(m, t) <= Measure(m, s)
    ensures !t.impossible && t.numSet == m.n * m.n && s.numSet != m.n * m.n ==> Measure(m, t) < Measure(m, s)
  {
  }

  /** Strictly fewer candidates, or a board that became impossible: the
      measure drops. */
  lemma MeasureLess(m: Maps, s: State, t: State)
    requires !s.impossible && (t.impossible || Total(t.w.cells) < Total(s.w.cells))
    ensures Measure(m, t) < Measure(m, s)
  {
  }

  /** An assignment that settled an open cell lowered the measure. */
  lemma SetShrinks(m: Maps, s: State, t: State, cell: nat)
    requires Inv(m, s) && Inv(m, t) && !s.impossible && cell < m.n * m.n
    requires Step(m, s.w, s.isSet, t.w, t.isSet, t.impossible)
    requires s.w.cells[cell].numOpts > 1 && (t.impossible || t.w.cells[cell].numOpts == 1)
    ensures Measure(m, t) < Measure(m, s)
  {
    if !t.impossible {
      NarrowsTotal(s.w.cells, t.w.cells, m.n);
    }
    MeasureLess(m, s, t);
  }

  /** A propagation step keeps a board at rest. */
  lemma StepSettled(m: Maps, s: State, t: State)
    requires Inv(m, s) && Inv(m, t) && Settled(m, s) && (s.impossible ==> t.impossible)
    requires Step(m, s.w, s.isSet, t.w, t.isSet, t.impossible)
    ensures Settled(m, t)
  {
    if !t.impossible {
      forall c | 0 <= c < m.n * m.n
        ensures Fits(m, t.w, t.isSet, c)
      {
        assert Fits(m, s.w, s.isSet, c);
      }
    }
  }

  lemma NarrowsTrans(a: seq<Options>, b: seq<Options>, c: seq<Options>)
    requires Narrows(a, b) && Narrows(b, c)
    ensures Narrows(a, c)
  {
    forall k | 0 <= k < |a|
      ensures Within(c[k], a[k])
    {
      assert Within(c[k], b[k]) && Within(b[k], a[k]);
    }
  }

  /** A union of two boards that both lie within `t` lies within `t`. */
  lemma UnionWithin(m: Maps, r: Views, x: Views, y: Views, t: seq<Options>)
    requires Coherent(m, x) && Coherent(m, y) && IsUnion(m, r, x, y)
    requires Narrows(t, x.cells) && Narrows(t, y.cells)
    ensures Narrows(t, r.cells)
  {
    forall c | 0 <= c < |t|
      ensures Within(r.cells[c], t[c])
    {
      UnionBounds(x.cells[c], y.cells[c], m.n);
    }
  }

  /** A board at rest that is not impossible and not solved has a cell with
      a choice left. */
  lemma OpenCell(m: Maps, s: State) returns (c: nat)
    requires Inv(m, s) && !s.impossible && AllFit(m, s.w, s.isSet) && s.numSet < m.n * m.n
    ensures c < m.n * m.n && c < 4 * (m.n * m.n) && TypeIdxToOpts(m, s.w, c).numOpts > 1
  {
    CountAllTrue(s.isSet);
    c :| 0 <= c < m.n * m.n && !s.isSet[c];
    assert Fits(m, s.w, s.isSet, c);
    CellUnit(m.n, c);
  }

  // Case analysis.

  /** The default board marked impossible: the starting point of the
      union of the cases of one unit. */
  method ImpossibleBoard(m: Maps) returns (b: State)
    requires IndexMaps.Valid(m)
    ensures Inv(m, b) && Settled(m, b) && b.impossible
  {
    b := Init(m);
    b := b.(impossible := true);
  }

  /** A possible board with every cell set. */
  ghost predicate Solved(m: Maps, s: State)
  {
    !s.impossible && s.numSet == m.n * m.n
  }

  /** `next` is case `opt` of unit `typeIdx` on board `t`: a copy of `t` with
      the (cell, value) pair the case names assigned, as `Set` leaves it. */
  ghost predicate IsCase(m: Maps, t: State, typeIdx: nat, opt: nat, next: State)
    requires Inv(m, t) && typeIdx < 4 * (m.n * m.n) && opt < m.n
  {
    var cv := TypeIdxOptToCellVal(m, typeIdx, opt);
    && Inv(m, next) && Settled(m, next)
    && (t.impossible ==> next == t)
    && Step(m, t.w, t.isSet, next.w, next.isSet, next.impossible)
    && (!next.impossible ==> next.isSet[cv.idx] && Done(m, next.w, cv.idx) && next.w.cells[cv.idx].isOpt[cv.opt])
  }

  /** What trying candidate `opt` of unit `typeIdx` of `t` contributes: the
      case, which did not solve the board, when the unit allows `opt`, and
      an impossible board when it does not. */
  ghost predicate TriedOpt(m: Maps, t: State, typeIdx: nat, opt: nat, c: State)
    requires Inv(m, t) && typeIdx < 4 * (m.n * m.n) && opt < m.n
  {
    && Inv(m, c) && Settled(m, c) && Sized(c.w.cells, m.n)
    && (TypeIdxToOpts(m, t.w, typeIdx).isOpt[opt] ==> IsCase(m, t, typeIdx, opt, c) && !Solved(m, c))
    && (!TypeIdxToOpts(m, t.w, typeIdx).isOpt[opt] ==> c.impossible)
  }

  /** The first |cases| candidates of the unit, tried in order. */
  ghost predicate Tried(m: Maps, t: State, typeIdx: nat, cases: seq<State>)
    requires Inv(m, t) && typeIdx < 4 * (m.n * m.n)
    decreases |cases|
  {
    && |cases| <= m.n
    && (forall k :: 0 <= k < |cases| ==> Sized(cases[k].w.cells, m.n))
    && (|cases| > 0 ==>
          && Tried(m, t, typeIdx, cases[..|cases| - 1])
          && TriedOpt(m, t, typeIdx, |cases| - 1, cases[|cases| - 1]))
  }

  /** Each candidate tried contributed its case. */
  lemma {:induction false} TriedAt(m: Maps, t: State, typeIdx: nat, cases: seq<State>, k: nat)
    requires Inv(m, t) && typeIdx < 4 * (m.n * m.n) && Tried(m, t, typeIdx, cases) && k < |cases|
    ensures TriedOpt(m, t, typeIdx, k, cases[k])
    decreases |cases|
  {
    if k < |cases| - 1 {
      TriedAt(m, t, typeIdx, cases[..|cases| - 1], k);
      assert cases[..|cases| - 1][k] == cases[k];
    }
  }

  /** `r` unites the cases that did not end impossible: it is impossible
      exactly when all of them are, and otherwise a cell allows a value
      exactly when one of those cases does. */
  ghost predicate UnionOfCases(m: Maps, r: State, cases: seq<State>)
    requires Sized(r.w.cells, m.n) && forall k :: 0 <= k < |cases| ==> Sized(cases[k].w.cells, m.n)
  {
    && (r.impossible <==> forall k :: 0 <= k < |cases| ==> cases[k].impossible)
    && (!r.impossible ==> forall c, v :: 0 <= c < m.n * m.n && 0 <= v < m.n ==>
          (r.w.cells[c].isOpt[v] <==> exists k :: 0 <= k < |cases| && Allowing(cases[k], c, v)))
  }

  /** A possible board whose cell `c` allows value `v`. */
  ghost predicate Allowing(s: State, c: nat, v: nat)
  {
    !s.impossible && c < |s.w.cells| && v < |s.w.cells[c].isOpt| && s.w.cells[c].isOpt[v]
  }

  /** One unit's turn of case analysis, from `t` to `r`: a unit that is
      decided or wider than `maxWidth` is skipped; otherwise the board
      becomes the first case that solves it, or else the union of all the
      cases. */
  ghost predicate UnitTurn(m: Maps, t: State, typeIdx: nat, maxWidth: nat, cases: seq<State>, r: State)
    requires Inv(m, t) && Inv(m, r) && typeIdx < 4 * (m.n * m.n)
  {
    var opts := TypeIdxToOpts(m, t.w, typeIdx);
    if opts.numOpts == 1 || opts.numOpts > maxWidth then r == t
    else
      && Tried(m, t, typeIdx, cases)
      && (Solved(m, r) ==> |cases| < m.n && opts.isOpt[|cases|] && IsCase(m, t, typeIdx, |cases|, r))
      && (!Solved(m, r) ==> |cases| == m.n && UnionOfCases(m, r, cases))
  }

  /** Unit `typeIdx` took its turn on the unsolved board `t`, giving `r`. */
  ghost predicate TurnTaken(m: Maps, maxWidth: nat, t: State, typeIdx: nat, cases: seq<State>, r: State)
  {
    && Inv(m, t) && Inv(m, r) && typeIdx < 4 * (m.n * m.n)
    && !Solved(m, t)
    && UnitTurn(m, t, typeIdx, maxWidth, cases, r)
  }

  /** The boards of a run of case analysis: `boards[k + 1]` is the turn of
      unit `k` on `boards[k]`, taken while the board was not solved. */
  ghost predicate Analysed(m: Maps, maxWidth: nat, boards: seq<State>, unitCases: seq<seq<State>>)
    decreases |unitCases|
  {
    && |boards| == |unitCases| + 1
    && (|unitCases| > 0 ==>
          var k := |unitCases| - 1;
          && Analysed(m, maxWidth, boards[..k + 1], unitCases[..k])
          && TurnTaken(m, maxWidth, boards[k], k, unitCases[k], boards[k + 1]))
  }

  /** Adding a case to the union: an impossible case leaves it as it is, any
      other is united with it. */
  lemma UnionExtends(m: Maps, merged: State, next: State, r: State, cases: seq<State>)
    requires Sized(merged.w.cells, m.n) && Sized(next.w.cells, m.n) && Sized(r.w.cells, m.n)
    requires forall k :: 0 <= k < |cases| ==> Sized(cases[k].w.cells, m.n)
    requires UnionOfCases(m, merged, cases)
    requires next.impossible ==> r == merged
    requires !next.impossible ==> !r.impossible && forall c :: 0 <= c < m.n * m.n ==>
      r.w.cells[c] == Union((if merged.impossible then next else merged).w.cells[c], next.w.cells[c])
    ensures forall k :: 0 <= k < |cases| + 1 ==> Sized((cases + [next])[k].w.cells, m.n)
    ensures UnionOfCases(m, r, cases + [next])
  {
    var all := cases + [next];
    assert forall k :: 0 <= k < |cases| ==> all[k] == cases[k];
    assert all[|cases|] == next;
    if !r.impossible {
      forall c, v | 0 <= c < m.n * m.n && 0 <= v < m.n
        ensures r.w.cells[c].isOpt[v] <==> exists k :: 0 <= k < |all| && Allowing(all[k], c, v)
      {
        if next.impossible {
          if r.w.cells[c].isOpt[v] {
            var k :| 0 <= k < |cases| && Allowing(cases[k], c, v);
            assert all[k] == cases[k];
          }
          if exists k :: 0 <= k < |all| && Allowing(all[k], c, v) {
            var k :| 0 <= k < |all| && Allowing(all[k], c, v);
            assert k < |cases| && Allowing(cases[k], c, v);
          }
        } else if merged.impossible {
          assert r.w.cells[c] == Union(next.w.cells[c], next.w.cells[c]);
          assert r.w.cells[c].isOpt[v] == next.w.cells[c].isOpt[v];
          if r.w.cells[c].isOpt[v] {
            assert Allowing(all[|cases|], c, v);
          }
        } else {
          assert r.w.cells[c] == Union(merged.w.cells[c], next.w.cells[c]);
          assert r.w.cells[c].isOpt[v] == (merged.w.cells[c].isOpt[v] || next.w.cells[c].isOpt[v]);
          if merged.w.cells[c].isOpt[v] {
            var k :| 0 <= k < |cases| && Allowing(cases[k], c, v);
            assert all[k] == cases[k];
          }
          if next.w.cells[c].isOpt[v] {
            assert Allowing(all[|cases|], c, v);
          }
          if exists k :: 0 <= k < |all| && Allowing(all[k], c, v) {
            var k :| 0 <= k < |all| && Allowing(all[k], c, v);
            if k < |cases| {
              assert Allowing(cases[k], c, v);
            }
          }
        }
      }
    }
  }

  /** Two unions of the same cases allow the same values in every cell. */
  lemma UnionCells(m: Maps, r1: State, r2: State, cases: seq<State>)
    requires Shaped(m, r1.w) && Shaped(m, r2.w)
    requires forall k :: 0 <= k < |cases| ==> Sized(cases[k].w.cells, m.n)
    requires UnionOfCases(m, r1, cases) && UnionOfCases(m, r2, cases) && !r1.impossible
    ensures !r2.impossible && r1.w.cells == r2.w.cells
  {
    forall c | 0 <= c < m.n * m.n
      ensures r1.w.cells[c] == r2.w.cells[c]
    {
      assert Live(r1.w.cells[c], m.n) && Live(r2.w.cells[c], m.n);
      assert r1.w.cells[c].isOpt == r2.w.cells[c].isOpt;
    }
  }

  /** The union is determined by the cases: two possible boards at rest
      that both unite the same cases are equal. */
  lemma UnionUnique(m: Maps, r1: State, r2: State, cases: seq<State>)
    requires Inv(m, r1) && Settled(m, r1) && Inv(m, r2) && Settled(m, r2)
    requires forall k :: 0 <= k < |cases| ==> Sized(cases[k].w.cells, m.n)
    requires UnionOfCases(m, r1, cases) && UnionOfCases(m, r2, cases) && !r1.impossible
    ensures r1 == r2
  {
    UnionCells(m, r1, r2, cases);
    DeterminedByCells(m, r1.w, r2.w, r1.isSet, r2.isSet);
  }

  /** A union of cases none of which solved the board does not solve it
      either: an open cell of a possible case stays open in the union. */
  lemma UnionUnsolved(m: Maps, t: State, typeIdx: nat, r: State, cases: seq<State>)
    requires Inv(m, t) && typeIdx < 4 * (m.n * m.n) && Tried(m, t, typeIdx, cases)
    requires Inv(m, r) && Settled(m, r)
    requires forall k :: 0 <= k < |cases| ==> Sized(cases[k].w.cells, m.n)
    requires UnionOfCases(m, r, cases)
    ensures !Solved(m, r)
  {
    if !r.impossible {
      var k :| 0 <= k < |cases| && !cases[k].impossible;
      var ck := cases[k];
      TriedAt(m, t, typeIdx, cases, k);
      forall c | 0 <= c < m.n * m.n
        ensures Within(ck.w.cells[c], r.w.cells[c])
      {
        forall v | 0 <= v < m.n && ck.w.cells[c].isOpt[v]
          ensures r.w.cells[c].isOpt[v]
        {
          assert Allowing(cases[k], c, v);
        }
      }
      WiderUnsolved(m, ck, r);
    }
  }

  /** A board at rest whose every cell allows at least what an unsolved
      board at rest allows is not solved either. */
  lemma WiderUnsolved(m: Maps, ck: State, r: State)
    requires Inv(m, ck) && Settled(m, ck) && !Solved(m, ck) && !ck.impossible
    requires Inv(m, r) && Settled(m, r) && !r.impossible
    requires forall c :: 0 <= c < m.n * m.n ==> Within(ck.w.cells[c], r.w.cells[c])
    ensures !Solved(m, r)
  {
    var d := OpenCell(m, ck);
    CellUnit(m.n, d);
    ShrinkCount(ck.w.cells[d], r.w.cells[d], m.n);
    assert Fits(m, r.w, r.isSet, d);
    CountAllTrue(r.isSet);
  }

  /** Tries every candidate of one unit on a copy of `t`. Stops at the first
      case that solves the board; otherwise returns the union of the cases
      that did not end impossible (impossible when none survived). */
  method TryUnit(m: Maps, t: State, typeIdx: nat, ghost sol: seq<nat>) returns (found: bool, merged: State, ghost cases: seq<State>)
    requires Inv(m, t) && Settled(m, t) && typeIdx < 4 * (m.n * m.n)
    ensures Inv(m, merged) && Settled(m, merged)
    ensures Tried(m, t, typeIdx, cases)
    ensures found ==> |cases| < m.n && TypeIdxToOpts(m, t.w, typeIdx).isOpt[|cases|]
                      && IsCase(m, t, typeIdx, |cases|, merged) && Solved(m, merged)
    ensures !found ==> |cases| == m.n && UnionOfCases(m, merged, cases)
    ensures !merged.impossible ==> !t.impossible && Narrows(t.w.cells, merged.w.cells)
    ensures Admits(m, t, sol) ==> found || Admits(m, merged, sol)
  {
    var opts := TypeIdxToOpts(m, t.w, typeIdx);
    merged := ImpossibleBoard(m);
    ghost var none := merged;
    found, cases := false, [];
    ghost var g: nat := 0;
    if Admits(m, t, sol) {
      g := GridCaseOf(m, t.w, sol, typeIdx);
    }
    var opt := 0;
    while opt < m.n
      invariant opt <= m.n && |cases| == opt
      invariant Inv(m, merged) && Settled(m, merged)
      invariant Tried(m, t, typeIdx, cases) && UnionOfCases(m, merged, cases)
      invariant !merged.impossible ==> !t.impossible && Narrows(t.w.cells, merged.w.cells)
      invariant Admits(m, t, sol) ==> g < m.n && GridCase(m, sol, typeIdx, g) && opts.isOpt[g]
      invariant Admits(m, t, sol) && g < opt ==> Admits(m, merged, sol)
    {
      ghost var before := merged;
      ghost var c;
      if opts.isOpt[opt] {
        found, merged, c := TryCase(m, t, typeIdx, opt, merged, cases, sol);
        if found {
          return;
        }
        assert Admits(m, t, sol) && g <= opt ==> Admits(m, merged, sol) by {
          if Admits(m, t, sol) && g <= opt {
            if g < opt {
              assert Admits(m, before, sol);
            } else {
              assert GridCase(m, sol, typeIdx, opt);
            }
          }
        }
      } else {
        assert Admits(m, t, sol) ==> g != opt;
        c := none;
        UnionExtends(m, merged, none, merged, cases);
      }
      TriedMore(m, t, typeIdx, cases, c);
      cases := cases + [c];
      opt := opt + 1;
    }
  }

  /** Appending the next candidate's contribution to those tried. */
  lemma TriedMore(m: Maps, t: State, typeIdx: nat, cases: seq<State>, c: State)
    requires Inv(m, t) && typeIdx < 4 * (m.n * m.n) && Tried(m, t, typeIdx, cases) && |cases| < m.n
    requires TriedOpt(m, t, typeIdx, |cases|, c)
    ensures Tried(m, t, typeIdx, cases + [c])
  {
    var all := cases + [c];
    assert all[..|cases|] == cases;
    assert all[|cases|] == c;
    SizedMore(m.n, cases, c);
    TriedUnfold(m, t, typeIdx, all);
  }

  lemma SizedMore(n: nat, cases: seq<State>, c: State)
    requires forall k :: 0 <= k < |cases| ==> Sized(cases[k].w.cells, n)
    requires Sized(c.w.cells, n)
    ensures forall k :: 0 <= k < |cases + [c]| ==> Sized((cases + [c])[k].w.cells, n)
  {
    forall k | 0 <= k < |cases + [c]|
      ensures Sized((cases + [c])[k].w.cells, n)
    {
      if k < |cases| {
        assert (cases + [c])[k] == cases[k];
      }
    }
  }

  /** One step of Tried: a tried prefix and the contribution of the last candidate. */
  lemma TriedUnfold(m: Maps, t: State, typeIdx: nat, all: seq<State>)
    requires Inv(m, t) && typeIdx < 4 * (m.n * m.n) && 0 < |all| <= m.n
    requires forall k :: 0 <= k < |all| ==> Sized(all[k].w.cells, m.n)
    requires Tried(m, t, typeIdx, all[..|all| - 1])
    requires TriedOpt(m, t, typeIdx, |all| - 1, all[|all| - 1])
    ensures Tried(m, t, typeIdx, all)
  {
  }

  /** One case of a unit: assigns its (cell, value) pair on a copy of `t`;
      a solved copy is returned as found, any other copy is united into
      `merged`, the union of the cases tried before. */
  method TryCase(m: Maps, t: State, typeIdx: nat, opt: nat, merged: State, ghost cases: seq<State>, ghost sol: seq<nat>)
    returns (found: bool, r: State, ghost next: State)
    requires Inv(m, t) && Settled(m, t) && typeIdx < 4 * (m.n * m.n) && opt < m.n
    requires TypeIdxToOpts(m, t.w, typeIdx).isOpt[opt]
    requires Inv(m, merged) && Settled(m, merged)
    requires !merged.impossible ==> !t.impossible && Narrows(t.w.cells, merged.w.cells)
    requires forall k :: 0 <= k < |cases| ==> Sized(cases[k].w.cells, m.n)
    requires UnionOfCases(m, merged, cases)
    ensures Inv(m, r) && Settled(m, r)
    ensures IsCase(m, t, typeIdx, opt, next)
    ensures found == Solved(m, next)
    ensures found ==> r == next
    ensures !found ==> UnionOfCases(m, r, cases + [next])
    ensures !r.impossible ==> !t.impossible && Narrows(t.w.cells, r.w.cells)
    ensures Admits(m, t, sol) && (Admits(m, merged, sol) || GridCase(m, sol, typeIdx, opt)) ==> found || Admits(m, r, sol)
  {
    var cv := TypeIdxOptToCellVal(m, typeIdx, opt);
    UnitFlags(m, t.w, typeIdx, opt);
    var outcome := Set(m, t, cv.idx, cv.opt, sol);
    next := outcome;
    StepSettled(m, t, outcome);
    if !t.impossible && t.isSet[cv.idx] {
      assert Fits(m, t.w, t.isSet, cv.idx);
    }
    if !outcome.impossible && outcome.numSet == m.n * m.n {
      return true, outcome, next;
    }
    found := false;
    r := Absorb(m, t, merged, outcome, sol);
    UnionExtends(m, merged, outcome, r, cases);
  }

  /** Unites a case that did not solve the board into the union so far. */
  method Absorb(m: Maps, t: State, merged: State, next: State, ghost sol: seq<nat>) returns (r: State)
    requires Inv(m, merged) && Settled(m, merged) && Inv(m, next) && Settled(m, next)
    requires Coherent(m, t.w)
    requires !merged.impossible ==> !t.impossible && Narrows(t.w.cells, merged.w.cells)
    requires !next.impossible ==> !t.impossible && Narrows(t.w.cells, next.w.cells)
    ensures Inv(m, r) && Settled(m, r)
    ensures next.impossible ==> r == merged
    ensures !next.impossible ==> !r.impossible && IsUnion(m, r.w, (if merged.impossible then next else merged).w, next.w)
    ensures !r.impossible ==> !t.impossible && Narrows(t.w.cells, r.w.cells)
    ensures Admits(m, merged, sol) || Admits(m, next, sol) ==> Admits(m, r, sol)
  {
    r := Board.Merge(m, merged, next);
    if !next.impossible {
      var x := (if merged.impossible then next else merged).w;
      UnionWithin(m, r.w, x, next.w, t.w.cells);
      if Admits(m, merged, sol) || Admits(m, next, sol) {
        UnionAllows(m, r.w, x, next.w, sol);
      }
    }
  }

  /** One unit's turn in the case analysis: a solved case replaces the
      board, and so does a union of the cases that differs from it. */
  method AnalyseUnit(m: Maps, t: State, typeIdx: nat, maxWidth: nat, ghost sol: seq<nat>)
    returns (changed: bool, solved: bool, r: State, ghost cases: seq<State>)
    requires Inv(m, t) && Settled(m, t) && typeIdx < 4 * (m.n * m.n)
    ensures Inv(m, r) && Settled(m, r)
    ensures UnitTurn(m, t, typeIdx, maxWidth, cases, r)
    ensures !Solved(m, t) ==> solved == Solved(m, r)
    ensures !changed ==> !solved && r == t
    ensures changed ==> Measure(m, r) <= Measure(m, t)
    ensures changed && !solved && !t.impossible ==> Measure(m, r) < Measure(m, t)
    ensures solved && t.numSet != m.n * m.n ==> Measure(m, r) < Measure(m, t)
    ensures solved ==> !r.impossible && r.numSet == m.n * m.n
    ensures !r.impossible ==> Narrows(t.w.cells, r.w.cells)
    ensures Admits(m, t, sol) ==> solved || Admits(m, r, sol)
  {
    var opts := TypeIdxToOpts(m, t.w, typeIdx);
    r := t;
    changed, solved, cases := false, false, [];
    if opts.numOpts == 1 || opts.numOpts > maxWidth {
      return;
    }
    var found, merged;
    found, merged, cases := TryUnit(m, t, typeIdx, sol);
    if found {
      SolvedLower(m, t, merged);
      return true, true, merged, cases;
    }
    UnionUnsolved(m, t, typeIdx, merged, cases);
    if merged != t {
      UnionLower(m, t, merged);
      return true, false, merged, cases;
    }
  }

  /** A solved case lies within the board it came from: the measure does not
      grow, and drops when that board was not solved. */
  lemma SolvedLower(m: Maps, t: State, r: State)
    requires Inv(m, t) && Inv(m, r) && !r.impossible && r.numSet == m.n * m.n
    requires !t.impossible && Narrows(t.w.cells, r.w.cells)
    ensures Measure(m, r) <= Measure(m, t)
    ensures t.numSet != m.n * m.n ==> Measure(m, r) < Measure(m, t)
  {
    NarrowsTotal(t.w.cells, r.w.cells, m.n);
    MeasureNoMore(m, t, r);
  }

  /** A union of cases that differs from the board it came from lowers the
      measure: either it is impossible, or, both boards being at rest, it
      lost a candidate somewhere. */
  lemma UnionLower(m: Maps, t: State, r: State)
    requires Inv(m, t) && Settled(m, t) && Inv(m, r) && Settled(m, r) && r != t
    requires !r.impossible ==> !t.impossible && Narrows(t.w.cells, r.w.cells)
    ensures Measure(m, r) <= Measure(m, t)
    ensures !t.impossible ==> Measure(m, r) < Measure(m, t)
  {
    if r.impossible {
      MeasureNoMore(m, t, r);
      if !t.impossible {
        MeasureLess(m, t, r);
      }
    } else {
      if r.w.cells == t.w.cells {
        DeterminedByCells(m, r.w, t.w, r.isSet, t.isSet);
      }
      NarrowsTotal(t.w.cells, r.w.cells, m.n);
      MeasureLess(m, t, r);
    }
  }

  /** Case analysis over every unit with at most `maxWidth` candidates
      (and more than one): returns whether the board changed, and the
      board. */
  method CaseAnalysis(m: Maps, s: State, maxWidth: nat, ghost sol: seq<nat>)
    returns (changed: bool, t: State, ghost boards: seq<State>, ghost unitCases: seq<seq<State>>)
    requires Inv(m, s) && Settled(m, s)
    ensures Inv(m, t) && Settled(m, t)
    ensures maxWidth == 1 || s.impossible || s.numSet == m.n * m.n ==> !changed && t == s
    ensures !changed ==> t == s
    ensures changed ==> Measure(m, t) < Measure(m, s)
    ensures !t.impossible ==> Narrows(s.w.cells, t.w.cells)
    ensures Admits(m, s, sol) ==> Admits(m, t, sol) || Solved(m, t)
    ensures !(maxWidth == 1 || s.impossible || s.numSet == m.n * m.n) ==>
      && Analysed(m, maxWidth, boards, unitCases) && boards[0] == s && boards[|unitCases|] == t
      && (|unitCases| == 4 * (m.n * m.n) || Solved(m, t))
  {
    t := s;
    changed, boards, unitCases := false, [s], [];
    if maxWidth == 1 || s.impossible || s.numSet == m.n * m.n {
      return;
    }
    var typeIdx := 0;
    while typeIdx < 4 * (m.n * m.n)
      invariant Inv(m, t) && Settled(m, t)
      invariant !changed ==> t == s
      invariant changed ==> Measure(m, t) < Measure(m, s)
      invariant !t.impossible ==> Narrows(s.w.cells, t.w.cells)
      invariant Admits(m, s, sol) ==> Admits(m, t, sol)
      invariant typeIdx <= 4 * (m.n * m.n) && |unitCases| == typeIdx && !Solved(m, t)
      invariant Analysed(m, maxWidth, boards, unitCases) && boards[0] == s && boards[typeIdx] == t
    {
      var unitChanged, solved, r;
      unitChanged, solved, r, boards, unitCases := AnalyseTurn(m, s, t, typeIdx, maxWidth, boards, unitCases, sol);
      if unitChanged {
        changed, t := true, r;
      }
      if solved {
        return;
      }
      typeIdx := typeIdx + 1;
    }
  }

  /** One turn of the loop of CaseAnalysis: unit `typeIdx` analysed on the
      unsolved board `t`, and the turn appended to the run so far. */
  method AnalyseTurn(m: Maps, s: State, t: State, typeIdx: nat, maxWidth: nat,
                     ghost boards: seq<State>, ghost unitCases: seq<seq<State>>, ghost sol: seq<nat>)
    returns (changed: bool, solved: bool, r: State, ghost boards': seq<State>, ghost unitCases': seq<seq<State>>)
    requires Inv(m, t) && Settled(m, t) && typeIdx < 4 * (m.n * m.n) && !Solved(m, t)
    requires !t.impossible ==> Narrows(s.w.cells, t.w.cells)
    requires Analysed(m, maxWidth, boards, unitCases) && |unitCases| == typeIdx && boards[typeIdx] == t
    ensures Inv(m, r) && Settled(m, r)
    ensures boards' == boards + [r] && |unitCases'| == typeIdx + 1 && Analysed(m, maxWidth, boards', unitCases')
    ensures solved == Solved(m, r)
    ensures !changed ==> !solved && r == t
    ensures changed ==> Measure(m, r) <= Measure(m, t)
    ensures changed && !solved && !t.impossible ==> Measure(m, r) < Measure(m, t)
    ensures solved && t.numSet != m.n * m.n ==> Measure(m, r) < Measure(m, t)
    ensures !r.impossible ==> Narrows(s.w.cells, r.w.cells)
    ensures Admits(m, t, sol) ==> solved || Admits(m, r, sol)
  {
    ghost var cases;
    changed, solved, r, cases := AnalyseUnit(m, t, typeIdx, maxWidth, sol);
    if !r.impossible {
      NarrowsTrans(s.w.cells, t.w.cells, r.w.cells);
    }
    assert TurnTaken(m, maxWidth, t, typeIdx, cases, r);
    AnalysedMore(m, maxWidth, boards, unitCases, cases, r);
    boards', unitCases' := boards + [r], unitCases + [cases];
  }

  /** Appending one more unit's turn to a run of case analysis. */
  lemma AnalysedMore(m: Maps, maxWidth: nat, boards: seq<State>, unitCases: seq<seq<State>>, cases: seq<State>, r: State)
    requires Analysed(m, maxWidth, boards, unitCases)
    requires TurnTaken(m, maxWidth, boards[|unitCases|], |unitCases|, cases, r)
    ensures Analysed(m, maxWidth, boards + [r], unitCases + [cases])
  {
    var bs, us := boards + [r], unitCases + [cases];
    assert bs[..|unitCases| + 1] == boards;
    assert us[..|unitCases|] == unitCases;
  }

  // Backtracking.

  /** The unit with the fewest candidates among those with more than one,
      the first such in index order; 4 * n * n when every unit is decided. */
  method Narrowest(m: Maps, w: Views) returns (best: nat)
    requires Coherent(m, w)
    ensures best <= 4 * (m.n * m.n)
    ensures best < 4 * (m.n * m.n) ==> TypeIdxToOpts(m, w, best).numOpts > 1
    ensures best < 4 * (m.n * m.n) ==> forall ti :: 0 <= ti < 4 * (m.n * m.n) && TypeIdxToOpts(m, w, ti).numOpts > 1 ==>
      TypeIdxToOpts(m, w, best).numOpts <= TypeIdxToOpts(m, w, ti).numOpts
    ensures best < 4 * (m.n * m.n) ==> forall ti :: 0 <= ti < best && TypeIdxToOpts(m, w, ti).numOpts > 1 ==>
      TypeIdxToOpts(m, w, best).numOpts < TypeIdxToOpts(m, w, ti).numOpts
    ensures best == 4 * (m.n * m.n) ==> forall ti :: 0 <= ti < 4 * (m.n * m.n) ==> TypeIdxToOpts(m, w, ti).numOpts == 1
  {
    var units := 4 * (m.n * m.n);
    best := units;
    var minOpts := m.n + 1;
    var typeIdx := 0;
    while typeIdx < units
      invariant typeIdx <= units && best <= units
      invariant best == units <==> minOpts == m.n + 1
      invariant best == units ==> forall ti :: 0 <= ti < typeIdx ==> TypeIdxToOpts(m, w, ti).numOpts == 1
      invariant best < units ==> best < typeIdx && minOpts == TypeIdxToOpts(m, w, best).numOpts > 1
      invariant best < units ==> forall ti :: 0 <= ti < typeIdx && TypeIdxToOpts(m, w, ti).numOpts > 1 ==>
        minOpts <= TypeIdxToOpts(m, w, ti).numOpts
      invariant best < units ==> forall ti :: 0 <= ti < best && TypeIdxToOpts(m, w, ti).numOpts > 1 ==>
        minOpts < TypeIdxToOpts(m, w, ti).numOpts
    {
      var opts := TypeIdxToOpts(m, w, typeIdx);
      if opts.numOpts > 1 && opts.numOpts < minOpts {
        best, minOpts := typeIdx, opts.numOpts;
      }
      typeIdx := typeIdx + 1;
    }
  }

  /** Runs case analysis until it stops changing the board, then backtracks.
      The result is impossible or solved; a solved board is a grid obeying
      the rules and keeps every value the input still allowed. */
  method Solve(m: Maps, s: State, maxWidth: nat, ghost sol: seq<nat>) returns (t: State)
    requires Inv(m, s) && Settled(m, s) && maxWidth >= 1
    decreases Measure(m, s), 1
    ensures Inv(m, t) && Settled(m, t)
    ensures s.impossible ==> t == s
    ensures t.impossible || t.numSet == m.n * m.n
    ensures !t.impossible ==> IsSolution(m, t.w.cells) && Narrows(s.w.cells, t.w.cells)
    ensures Admits(m, s, sol) ==> !t.impossible
  {
    var changed;
    ghost var boards, unitCases;
    changed, t, boards, unitCases := CaseAnalysis(m, s, maxWidth, sol);
    while changed
      invariant Inv(m, t) && Settled(m, t)
      invariant Measure(m, t) <= Measure(m, s) && (s.impossible ==> t == s)
      invariant !t.impossible ==> Narrows(s.w.cells, t.w.cells)
      invariant Admits(m, s, sol) ==> Admits(m, t, sol) || (!t.impossible && t.numSet == m.n * m.n)
      decreases if changed then Measure(m, t) + 1 else 0
    {
      var before := t;
      changed, t, boards, unitCases := CaseAnalysis(m, t, maxWidth, sol);
      if !t.impossible {
        NarrowsTrans(s.w.cells, before.w.cells, t.w.cells);
      }
    }
    var before := t;
    t := Bruteforce(m, t, sol);
    if !t.impossible {
      NarrowsTrans(s.w.cells, before.w.cells, t.w.cells);
      SolvedIsSolution(m, t);
    }
  }

  /** A settled board with every cell set is a solution. */
  lemma SolvedIsSolution(m: Maps, s: State)
    requires Inv(m, s) && !s.impossible && AllFit(m, s.w, s.isSet) && s.numSet == m.n * m.n
    ensures IsSolution(m, s.w.cells)
  {
    CountAllTrue(s.isSet);
    forall c | 0 <= c < m.n * m.n
      ensures Done(m, s.w, c)
    {
      assert Fits(m, s.w, s.isSet, c);
    }
    AllDoneIsSolution(m, s.w);
  }

  /** Tries every candidate of the narrowest open unit in turn, solving each
      case with the default width 3; the first solved case is the result,
      and when none is the board is marked impossible and otherwise kept. */
  method Bruteforce(m: Maps, s: State, ghost sol: seq<nat>) returns (t: State)
    requires Inv(m, s) && Settled(m, s)
    decreases Measure(m, s), 0
    ensures Inv(m, t) && Settled(m, t)
    ensures s.impossible || s.numSet == m.n * m.n ==> t == s
    ensures t.impossible || t.numSet == m.n * m.n
    ensures t.impossible ==> t == s.(impossible := true)
    ensures !t.impossible ==> Narrows(s.w.cells, t.w.cells)
    ensures Admits(m, s, sol) ==> !t.impossible
  {
    if s.impossible || s.numSet == m.n * m.n {
      return s;
    }
    var open := OpenCell(m, s);
    var best := Narrowest(m, s.w);
    var bestOpts := TypeIdxToOpts(m, s.w, best);
    ghost var g: nat := 0;
    if Admits(m, s, sol) {
      g := GridCaseOf(m, s.w, sol, best);
    }
    var opt := 0;
    while opt < m.n
      invariant opt <= m.n
      invariant Admits(m, s, sol) ==> g < m.n && GridCase(m, sol, best, g) && bestOpts.isOpt[g] && opt <= g
    {
      if bestOpts.isOpt[opt] {
        var cv := TypeIdxOptToCellVal(m, best, opt);
        OpenUnitCell(m, s, best, opt);
        var next := Set(m, s, cv.idx, cv.opt, sol);
        assert Admits(m, s, sol) && opt == g ==> Admits(m, next, sol) by {
          if Admits(m, s, sol) && opt == g {
            assert GridCase(m, sol, best, opt);
          }
        }
        StepSettled(m, s, next);
        SetShrinks(m, s, next, cv.idx);
        var solved := Solve(m, next, 3, sol);
        if !solved.impossible && solved.numSet == m.n * m.n {
          NarrowsTrans(s.w.cells, next.w.cells, solved.w.cells);
          return solved;
        }
      }
      opt := opt + 1;
    }
    t := s.(impossible := true);
  }

  // Reading a puzzle.

  /** Assigns a given value: a value the cell no longer allows makes the
      board impossible first (and the assignment then does nothing). */
  method MaybeSet(m: Maps, s: State, cell: nat, val: nat, ghost sol: seq<nat>) returns (t: State)
    requires Inv(m, s) && cell < m.n * m.n && val < m.n
    ensures Inv(m, t)
    ensures Settled(m, s) ==> Settled(m, t)
    ensures s.impossible ==> t == s
    ensures !s.w.cells[cell].isOpt[val] ==> t == s.(impossible := true)
    ensures !t.impossible ==> Narrows(s.w.cells, t.w.cells)
    ensures Settled(m, s) && !t.impossible ==> t.isSet[cell] && t.w.cells[cell].numOpts == 1 && t.w.cells[cell].isOpt[val]
    ensures Admits(m, s, sol) && Puts(sol, cell, val) ==> Admits(m, t, sol)
  {
    var u := s;
    if !s.w.cells[cell].isOpt[val] {
      u := s.(impossible := true);
    }
    t := Set(m, u, cell, val, sol);
    if Settled(m, s) {
      StepSettled(m, u, t);
      if !t.impossible && s.isSet[cell] {
        assert Fits(m, s.w, s.isSet, cell);
      }
    }
  }

  /** The values given for the cells, 0 for an empty cell and v + 1 for
      value v, each within the grid's values. */
  ghost predicate Givens(m: Maps, vals: seq<nat>)
  {
    |vals| == m.n * m.n && forall c :: 0 <= c < |vals| ==> vals[c] <= m.n
  }

  /** The grid `sol` agrees with every given value. */
  ghost predicate Agrees(vals: seq<nat>, sol: seq<nat>)
  {
    forall c :: 0 <= c < |vals| && vals[c] != 0 ==> Puts(sol, c, vals[c] - 1)
  }

  /** The cell holds the given value (or was left empty). */
  ghost predicate Holds(w: Views, vals: seq<nat>, c: nat)
    requires c < |w.cells| && c < |vals|
  {
    vals[c] != 0 ==> w.cells[c].numOpts == 1 && vals[c] - 1 < |w.cells[c].isOpt| && w.cells[c].isOpt[vals[c] - 1]
  }

  /** A cell holding a single value keeps it while candidates are only taken
      away. */
  lemma HoldsStays(m: Maps, a: Views, b: Views, vals: seq<nat>, c: nat)
    requires Coherent(m, a) && Coherent(m, b) && Givens(m, vals) && c < m.n * m.n && vals[c] != 0
    requires Narrows(a.cells, b.cells) && Holds(a, vals, c)
    ensures Holds(b, vals, c)
  {
    SingletonStable(b.cells[c], a.cells[c], m.n, vals[c] - 1);
  }

  /** The values given to the first `k` cells stay in place while
      candidates are only taken away. */
  lemma GivensStay(m: Maps, a: Views, b: Views, vals: seq<nat>, k: nat)
    requires Coherent(m, a) && Coherent(m, b) && Givens(m, vals) && k <= m.n * m.n
    requires Narrows(a.cells, b.cells) && forall c :: 0 <= c < k ==> Holds(a, vals, c)
    ensures forall c :: 0 <= c < k ==> Holds(b, vals, c)
  {
    forall c | 0 <= c < k && vals[c] != 0
      ensures Holds(b, vals, c)
    {
      HoldsStays(m, a, b, vals, c);
    }
  }

  /** Starts from the default board and assigns the given values cell by
      cell; unless the puzzle turned out impossible, every given value is in
      place. */
  method Input(m: Maps, vals: seq<nat>, ghost sol: seq<nat>) returns (s: State)
    requires IndexMaps.Valid(m) && Givens(m, vals)
    ensures Inv(m, s) && Settled(m, s)
    ensures !s.impossible ==> forall c :: 0 <= c < m.n * m.n ==> Holds(s.w, vals, c)
    ensures Grid(m, sol) && Agrees(vals, sol) ==> Admits(m, s, sol)
  {
    s := Init(m);
    ghost var agree := Grid(m, sol) && Agrees(vals, sol);
    if agree {
      FullAllows(m, sol);
    }
    var cell := 0;
    while cell < m.n * m.n
      invariant cell <= m.n * m.n && Inv(m, s) && Settled(m, s)
      invariant !s.impossible ==> forall c :: 0 <= c < cell ==> Holds(s.w, vals, c)
      invariant agree ==> Admits(m, s, sol)
    {
      var before := s;
      s := InputCell(m, s, vals, cell, sol);
      if !s.impossible {
        GivensAfter(m, before.w, s.w, vals, cell);
      }
      cell := cell + 1;
    }
  }

  /** One step of reading a puzzle: assigns the value given to `cell`, if
      any. */
  method InputCell(m: Maps, s: State, vals: seq<nat>, cell: nat, ghost sol: seq<nat>) returns (t: State)
    requires Inv(m, s) && Settled(m, s) && Givens(m, vals) && cell < m.n * m.n
    ensures Inv(m, t) && Settled(m, t)
    ensures !t.impossible ==> !s.impossible && Narrows(s.w.cells, t.w.cells)
    ensures !t.impossible && vals[cell] != 0 ==> t.w.cells[cell].numOpts == 1 && t.w.cells[cell].isOpt[vals[cell] - 1]
    ensures Admits(m, s, sol) && (vals[cell] != 0 ==> Puts(sol, cell, vals[cell] - 1)) ==> Admits(m, t, sol)
  {
    t := s;
    if vals[cell] != 0 {
      t := MaybeSet(m, s, cell, vals[cell] - 1, sol);
    }
  }

  /** Assigning the value given to cell `k` keeps the values given to the
      cells before it. */
  lemma GivensAfter(m: Maps, a: Views, b: Views, vals: seq<nat>, k: nat)
    requires Coherent(m, a) && Coherent(m, b) && Givens(m, vals) && k < m.n * m.n
    requires Narrows(a.cells, b.cells) && forall c :: 0 <= c < k ==> Holds(a, vals, c)
    requires vals[k] != 0 ==> b.cells[k].numOpts == 1 && b.cells[k].isOpt[vals[k] - 1]
    ensures forall c :: 0 <= c < k + 1 ==> Holds(b, vals, c)
  {
    GivensStay(m, a, b, vals, k);
    GivensExtend(m, b, vals, k);
  }

  lemma GivensExtend(m: Maps, w: Views, vals: seq<nat>, k: nat)
    requires Coherent(m, w) && Givens(m, vals) && k < m.n * m.n
    requires forall c :: 0 <= c < k ==> Holds(w, vals, c)
    requires Holds(w, vals, k)
    ensures forall c :: 0 <= c < k + 1 ==> Holds(w, vals, c)
  {
  }

  /** Two equal givens in one row, column or box: unless the board is
      impossible both cells would hold the value, and a done cell's value is
      allowed nowhere else in its groups. */
  lemma ClashingGivens(m: Maps, s: State, vals: seq<nat>, c: nat, d: nat)
    requires Inv(m, s) && Settled(m, s) && Givens(m, vals)
    requires !s.impossible ==> forall k :: 0 <= k < m.n * m.n ==> Holds(s.w, vals, k)
    requires c < m.n * m.n && d < m.n * m.n && c != d && Peers(m, c, d)
    requires vals[c] != 0 && vals[c] == vals[d]
    ensures s.impossible
  {
    if !s.impossible {
      assert Holds(s.w, vals, c) && Holds(s.w, vals, d);
      assert Fits(m, s.w, s.isSet, c);
      NotBothHold(m, s.w, s.isSet, vals, c, d);
      assert false;
    }
  }

  /** A cell holding its given has the given's flag up. */
  lemma HoldsFlag(w: Views, vals: seq<nat>, c: nat)
    requires c < |w.cells| && c < |vals| && vals[c] != 0 && Holds(w, vals, c)
    ensures vals[c] - 1 < |w.cells[c].isOpt| && w.cells[c].isOpt[vals[c] - 1]
  {
  }

  /** A cell at rest that holds a value keeps that value from its peers. */
  lemma NotBothHold(m: Maps, w: Views, isSet: seq<bool>, vals: seq<nat>, c: nat, d: nat)
    requires Coherent(m, w) && |isSet| == m.n * m.n
    requires |vals| == m.n * m.n && c < |vals| && d < |vals| && c != d && Peers(m, c, d)
    requires Fits(m, w, isSet, c) && vals[c] != 0 && Holds(w, vals, c)
    requires vals[c] == vals[d]
    ensures !Holds(w, vals, d)
  {
    var v := vals[c] - 1;
    assert w.cells[c].numOpts == 1;
    assert isSet[c] && Done(m, w, c);
    assert v < m.n && w.cells[c].isOpt[v];
    NoTwiceInGroup(m, w, c, d, v);
    if Holds(w, vals, d) {
      HoldsFlag(w, vals, d);
    }
  }

}
