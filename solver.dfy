/** The solver object: the board's members as fields that every operation
    updates in place, over the value-level operations of Board and Search. */
module Solver {
  import opened IndexMaps
  import opened Candidates
  import opened Coherence
  import opened Propagation
  import opened Board
  import opened Search
  import opened Solutions

  class Sudoku {
    const m: Maps
    var w: Views
    var numSet: nat
    var isSet: seq<bool>
    var impossible: bool

    /** The members as one board value. */
    function Snapshot(): State
      reads this
    {
      State(w, numSet, isSet, impossible)
    }

    /** The board invariant between operations. */
    ghost predicate Valid()
      reads this
    {
      Inv(m, Snapshot()) && Settled(m, Snapshot())
    }

    method Store(s: State)
      modifies this
      ensures Snapshot() == s
    {
      w, numSet, isSet, impossible := s.w, s.numSet, s.isSet, s.impossible;
    }

    /** The default board over the given tables. */
    constructor (maps: Maps)
      requires IndexMaps.Valid(maps)
      ensures Valid() && m == maps
      ensures w == FullViews(maps) && !impossible
    {
      m := maps;
      var s := Init(maps);
      w, numSet, isSet, impossible := s.w, s.numSet, s.isSet, s.impossible;
    }

    method Remove(cell: nat, val: nat, ghost sol: seq<nat>)
      requires Valid() && cell < m.n * m.n && val < m.n
      requires impossible || w.cells[cell].isOpt[val]
      modifies this
      ensures Valid()
      ensures old(impossible) ==> Snapshot() == old(Snapshot())
      ensures !old(impossible) && Pinned(m, old(w), cell, val) ==> Snapshot() == old(Snapshot()).(impossible := true)
      ensures impossible || !w.cells[cell].isOpt[val]
      ensures !impossible ==> forall kind :: 1 <= kind <= 3 ==> GroupFits(m, w, isSet, kind, cell, val)
      ensures impossible || Narrows(old(w).cells, w.cells)
      ensures Admits(m, old(Snapshot()), sol) && !Puts(sol, cell, val) ==> Admits(m, Snapshot(), sol)
    {
      var s := Snapshot();
      var t := Board.Remove(m, s, cell, val, sol);
      StepSettled(m, s, t);
      Store(t);
    }

    method Set(cell: nat, val: nat, ghost sol: seq<nat>)
      requires Valid() && cell < m.n * m.n && val < m.n
      requires impossible || w.cells[cell].isOpt[val]
      modifies this
      ensures Valid()
      ensures old(impossible) || old(isSet[cell]) ==> Snapshot() == old(Snapshot())
      ensures !old(impossible) && !old(isSet[cell]) ==> isSet[cell] && numSet > old(numSet)
      ensures !impossible ==> w.cells[cell].numOpts == 1 && w.cells[cell].isOpt[val]
      ensures impossible || Narrows(old(w).cells, w.cells)
      ensures Admits(m, old(Snapshot()), sol) && Puts(sol, cell, val) ==> Admits(m, Snapshot(), sol)
    {
      var s := Snapshot();
      var t := Board.Set(m, s, cell, val, sol);
      StepSettled(m, s, t);
      if !t.impossible && s.isSet[cell] {
        assert Fits(m, s.w, s.isSet, cell);
      }
      if !s.impossible && !s.isSet[cell] {
        MarkCounts(s.isSet, t.isSet, cell);
      }
      Store(t);
    }

    method Merge(other: Sudoku)
      requires Valid() && other.Valid() && other.m == m
      modifies this
      ensures Valid()
      ensures old(other.impossible) ==> Snapshot() == old(Snapshot())
      ensures !old(other.impossible) ==>
                !impossible && IsUnion(m, w, (if old(impossible) then old(other.w) else old(w)), old(other.w))
    {
      var t := Board.Merge(m, Snapshot(), other.Snapshot());
      Store(t);
    }

    method CaseAnalysis(maxWidth: nat, ghost sol: seq<nat>)
      returns (changed: bool, ghost boards: seq<State>, ghost unitCases: seq<seq<State>>)
      requires Valid()
      modifies this
      ensures Valid()
      ensures maxWidth == 1 || old(impossible) || old(numSet) == m.n * m.n ==> !changed
      ensures !changed ==> Snapshot() == old(Snapshot())
      ensures changed ==> Measure(m, Snapshot()) < Measure(m, old(Snapshot()))
      ensures !impossible ==> Narrows(old(w).cells, w.cells)
      ensures Admits(m, old(Snapshot()), sol) ==> Admits(m, Snapshot(), sol) || Solved(m, Snapshot())
      ensures !(maxWidth == 1 || old(impossible) || old(numSet) == m.n * m.n) ==>
        && Analysed(m, maxWidth, boards, unitCases) && boards[0] == old(Snapshot()) && boards[|unitCases|] == Snapshot()
        && (|unitCases| == 4 * (m.n * m.n) || Solved(m, Snapshot()))
    {
      var t;
      changed, t, boards, unitCases := Search.CaseAnalysis(m, Snapshot(), maxWidth, sol);
      Store(t);
    }

    method Bruteforce(ghost sol: seq<nat>)
      requires Valid()
      modifies this
      ensures Valid()
      ensures old(impossible) || old(numSet) == m.n * m.n ==> Snapshot() == old(Snapshot())
      ensures impossible || numSet == m.n * m.n
      ensures impossible ==> Snapshot() == old(Snapshot()).(impossible := true)
      ensures !impossible ==> Narrows(old(w).cells, w.cells)
      ensures Admits(m, old(Snapshot()), sol) ==> !impossible
    {
      var t := Search.Bruteforce(m, Snapshot(), sol);
      Store(t);
    }

    method Solve(maxWidth: nat, ghost sol: seq<nat>)
      requires Valid() && maxWidth >= 1
      modifies this
      ensures Valid()
      ensures old(impossible) ==> Snapshot() == old(Snapshot())
      ensures impossible || numSet == m.n * m.n
      ensures !impossible ==> IsSolution(m, w.cells) && Narrows(old(w).cells, w.cells)
      ensures Admits(m, old(Snapshot()), sol) ==> !impossible
    {
      var t := Search.Solve(m, Snapshot(), maxWidth, sol);
      Store(t);
    }

    method MaybeSet(cell: nat, val: nat, ghost sol: seq<nat>)
      requires Valid() && cell < m.n * m.n && val < m.n
      modifies this
      ensures Valid()
      ensures old(impossible) ==> Snapshot() == old(Snapshot())
      ensures !old(w).cells[cell].isOpt[val] ==> Snapshot() == old(Snapshot()).(impossible := true)
      ensures !impossible ==> isSet[cell] && w.cells[cell].numOpts == 1 && w.cells[cell].isOpt[val]
      ensures !impossible ==> Narrows(old(w).cells, w.cells)
      ensures Admits(m, old(Snapshot()), sol) && Puts(sol, cell, val) ==> Admits(m, Snapshot(), sol)
    {
      var t := Search.MaybeSet(m, Snapshot(), cell, val, sol);
      Store(t);
    }

    method Input(vals: seq<nat>, ghost sol: seq<nat>)
      requires IndexMaps.Valid(m) && Givens(m, vals)
      modifies this
      ensures Valid()
      ensures !impossible ==> forall c :: 0 <= c < m.n * m.n ==> Holds(w, vals, c)
      ensures Grid(m, sol) && Agrees(vals, sol) ==> Admits(m, Snapshot(), sol)
    {
      var t := Search.Input(m, vals, sol);
      Store(t);
    }
  }

  /** Marks only added, one of them new: the count of marks grew. */
  lemma MarkCounts(a: seq<bool>, b: seq<bool>, i: nat)
    requires Grows(a, b) && i < |a| && !a[i] && b[i]
    ensures Count(a) < Count(b)
  {
    CountWithin(a, b);
  }
}
