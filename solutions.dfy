/** Solutions of a grid: a value for every cell such that every row, column
    and box holds every value exactly once, and whether the candidates of a
    board still allow such a grid. */
module Solutions {
  import opened IndexMaps
  import opened Candidates
  import opened Coherence

  /** Value `v` occurs in row `i`, in column `i` and in box `i` of `sol`. */
  ghost predicate Placed(m: Maps, sol: seq<nat>, i: nat, v: nat)
    requires IndexMaps.Valid(m) && |sol| == m.n * m.n && i < m.n
  {
    && (exists o :: 0 <= o < m.n && sol[m.rowOptToCell[i][o]] == v)
    && (exists o :: 0 <= o < m.n && sol[m.colOptToCell[i][o]] == v)
    && (exists o :: 0 <= o < m.n && sol[m.boxOptToCell[i][o]] == v)
  }

  /** A filled grid obeying the rules: a value below n in every cell, every
      value somewhere in every row, column and box, and no value twice in a
      row, column or box. */
  ghost predicate Grid(m: Maps, sol: seq<nat>)
    requires IndexMaps.Valid(m)
  {
    && |sol| == m.n * m.n
    && (forall c :: 0 <= c < m.n * m.n ==> sol[c] < m.n)
    && (forall i, v :: 0 <= i < m.n && 0 <= v < m.n ==> Placed(m, sol, i, v))
    && (forall c, d :: 0 <= c < m.n * m.n && 0 <= d < m.n * m.n && c != d && Peers(m, c, d) ==> sol[c] != sol[d])
  }

  /** `sol` puts value `v` in cell `c`. */
  ghost predicate Puts(sol: seq<nat>, c: nat, v: nat)
  {
    c < |sol| && sol[c] == v
  }

  /** Every cell of the views still allows the value `sol` puts there. */
  ghost predicate Allows(w: Views, sol: seq<nat>)
  {
    |sol| == |w.cells| && forall c :: 0 <= c < |sol| ==> sol[c] < |w.cells[c].isOpt| && w.cells[c].isOpt[sol[c]]
  }

  /** The default views allow every grid. */
  lemma FullAllows(m: Maps, sol: seq<nat>)
    requires IndexMaps.Valid(m) && Grid(m, sol)
    ensures Allows(FullViews(m), sol)
  {
  }

  /** A union allows whatever one of its operands allows. */
  lemma UnionAllows(m: Maps, r: Views, x: Views, y: Views, sol: seq<nat>)
    requires Coherent(m, x) && Coherent(m, y) && IsUnion(m, r, x, y)
    requires Allows(x, sol) || Allows(y, sol)
    ensures Allows(r, sol)
  {
    forall c | 0 <= c < |sol|
      ensures sol[c] < |r.cells[c].isOpt| && r.cells[c].isOpt[sol[c]]
    {
      assert r.cells[c] == Union(x.cells[c], y.cells[c]);
    }
  }

  /** Taking a value other than the grid's out of a cell keeps the grid
      allowed. */
  lemma ClearedAllows(m: Maps, w: Views, cell: nat, val: nat, r: Views, sol: seq<nat>)
    requires Coherent(m, w) && cell < m.n * m.n && val < m.n
    requires ClearedFrom(m, w, cell, val, r) && Allows(w, sol) && sol[cell] != val
    ensures Allows(r, sol)
  {
  }

  /** A board with a single candidate in every cell that allows a grid holds
      exactly that grid. */
  lemma AllowsSolved(m: Maps, w: Views, sol: seq<nat>)
    requires Coherent(m, w) && Allows(w, sol)
    requires forall c :: 0 <= c < m.n * m.n ==> w.cells[c].numOpts == 1
    ensures forall c, v :: 0 <= c < m.n * m.n && 0 <= v < m.n ==> (w.cells[c].isOpt[v] <==> v == sol[c])
  {
    forall c, v | 0 <= c < m.n * m.n && 0 <= v < m.n
      ensures w.cells[c].isOpt[v] <==> v == sol[c]
    {
      CountOne(w.cells[c].isOpt, sol[c]);
    }
  }
}
