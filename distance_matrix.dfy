/** `calculate_distance_matrix`: a square matrix over the sorted point ids,
    filled symmetrically from the edge rows (the last row for a pair wins,
    pairs without a row hold 0), then completed by ONE in-place sweep,
    columns outer and rows inner, that sets every zero off-diagonal cell
    (idx, col), and its mirror (col, idx), to the largest
    d(idx, k) + d(k, col) over the points k with d(idx, k) != 0, read from the
    partly updated matrix. A 0 stands both for "no row" and for a real
    distance of 0. */
module DistanceMatrix {
  import opened Tables

  /** One row of the input table: id_start, id_end, distance. */
  datatype Edge = Edge(idStart: int, idEnd: int, distance: real)

  /** The ids a table of edges mentions, in either column. */
  ghost predicate Mentions(edges: seq<Edge>, x: int) {
    exists i :: 0 <= i < |edges| && (edges[i].idStart == x || edges[i].idEnd == x)
  }

  /** The id_start and id_end values of every row. */
  function Endpoints(edges: seq<Edge>): (ids: seq<int>)
    ensures forall x :: x in ids <==> Mentions(edges, x)
  {
    if |edges| == 0 then []
    else
      var p, e := edges[..|edges| - 1], edges[|edges| - 1];
      assert forall i :: 0 <= i < |p| ==> p[i] == edges[i];
      assert forall x :: Mentions(edges, x) <==> Mentions(p, x) || e.idStart == x || e.idEnd == x;
      Endpoints(p) + [e.idStart, e.idEnd]
  }

  /** The id axis of the matrix: the sorted union of both id columns. */
  function PointIds(edges: seq<Edge>): (ids: seq<int>)
    ensures StrictlyAscending(ids)
    ensures forall x :: x in ids <==> Mentions(edges, x)
  {
    SortedDistinct(Endpoints(edges))
  }

  predicate Connects(e: Edge, a: int, b: int) {
    (e.idStart == a && e.idEnd == b) || (e.idStart == b && e.idEnd == a)
  }

  /** What the row loop leaves in cell (a, b) once the gaps are filled with 0:
      the distance of the last row joining a and b, in either direction. */
  function LastDistance(edges: seq<Edge>, a: int, b: int): real {
    if |edges| == 0 then 0.0
    else if Connects(edges[|edges| - 1], a, b) then edges[|edges| - 1].distance
    else LastDistance(edges[..|edges| - 1], a, b)
  }

  /** The cells are symmetric, and each is decided by the last row joining
      its two points; with no such row it is 0. */
  lemma {:induction false} LastDistanceIsLastRow(edges: seq<Edge>, a: int, b: int)
    ensures LastDistance(edges, a, b) == LastDistance(edges, b, a)
    ensures forall i ::
              0 <= i < |edges| && Connects(edges[i], a, b) &&
              (forall j :: i < j < |edges| ==> !Connects(edges[j], a, b))
              ==> LastDistance(edges, a, b) == edges[i].distance
    ensures (forall i :: 0 <= i < |edges| ==> !Connects(edges[i], a, b))
      ==> LastDistance(edges, a, b) == 0.0
  {
    if |edges| > 0 {
      var p := edges[..|edges| - 1];
      LastDistanceIsLastRow(p, a, b);
      assert forall i :: 0 <= i < |p| ==> p[i] == edges[i];
    }
  }

  lemma NonzeroHasRow(edges: seq<Edge>, a: int, b: int)
    requires LastDistance(edges, a, b) != 0.0
    ensures exists i :: 0 <= i < |edges| && Connects(edges[i], a, b)
  {
    LastDistanceIsLastRow(edges, a, b);
  }

  /** The matrix after the row loop and `fillna(0)`. */
  function DirectGrid(edges: seq<Edge>, ids: seq<int>): (g: seq<seq<real>>)
    ensures IsSquare(g, |ids|)
  {
    seq(|ids|, i requires 0 <= i < |ids| =>
      seq(|ids|, j requires 0 <= j < |ids| => LastDistance(edges, ids[i], ids[j])))
  }

  /** The row loop and `fillna(0)`: every row sets (start, end) and
      (end, start) to its distance, later rows overwriting earlier ones. */
  method FillDirect(edges: seq<Edge>, ids: seq<int>) returns (m: array2<real>)
    requires Distinct(ids)
    requires forall i :: 0 <= i < |edges| ==> edges[i].idStart in ids && edges[i].idEnd in ids
    ensures fresh(m) && m.Length0 == |ids| && m.Length1 == |ids|
    ensures forall i, j :: 0 <= i < |ids| && 0 <= j < |ids| ==>
      m[i, j] == LastDistance(edges, ids[i], ids[j])
  {
    var n := |ids|;
    m := new real[n, n]((i, j) => 0.0);
    var r := 0;
    while r < |edges|
      invariant 0 <= r <= |edges|
      invariant forall i, j :: 0 <= i < n && 0 <= j < n ==>
        m[i, j] == LastDistance(edges[..r], ids[i], ids[j])
    {
      var e := edges[r];
      var s, t := IndexOf(ids, e.idStart), IndexOf(ids, e.idEnd);
      m[s, t] := e.distance;
      m[t, s] := e.distance;
      assert edges[..r + 1][..r] == edges[..r];
      assert forall i, j :: 0 <= i < n && 0 <= j < n ==>
        (Connects(e, ids[i], ids[j]) <==> (i == s && j == t) || (i == t && j == s));
      r := r + 1;
    }
    assert edges[..|edges|] == edges;
  }

  // ---------------------------------------------------------------------
  // The completion sweep, stated on the matrix as a sequence of rows.

  predicate IsSquare(g: seq<seq<real>>, n: nat) {
    HasShape(g, n, n)
  }

  ghost predicate Symmetric(g: seq<seq<real>>, n: nat)
    requires IsSquare(g, n)
  {
    forall i, j :: 0 <= i < n && 0 <= j < n ==> g[i][j] == g[j][i]
  }

  /** Row i has a nonzero cell, so a search for intermediates in it finds one. */
  ghost predicate RowLinked(g: seq<seq<real>>, n: nat, i: nat)
    requires IsSquare(g, n) && i < n
  {
    exists k :: 0 <= k < n && g[i][k] != 0.0
  }

  ghost predicate RowsLinked(g: seq<seq<real>>, n: nat)
    requires IsSquare(g, n)
  {
    forall i :: 0 <= i < n ==> RowLinked(g, n, i)
  }

  ghost predicate NonNegative(g: seq<seq<real>>, n: nat)
    requires IsSquare(g, n)
  {
    forall i, j :: 0 <= i < n && 0 <= j < n ==> g[i][j] >= 0.0
  }

  /** Every nonzero cell of g has the same value in h. */
  ghost predicate KeepsNonzero(g: seq<seq<real>>, h: seq<seq<real>>, n: nat)
    requires IsSquare(g, n) && IsSquare(h, n)
  {
    forall i, j :: 0 <= i < n && 0 <= j < n && g[i][j] != 0.0 ==> h[i][j] == g[i][j]
  }

  ghost predicate SameDiagonal(g: seq<seq<real>>, h: seq<seq<real>>, n: nat)
    requires IsSquare(g, n) && IsSquare(h, n)
  {
    forall i :: 0 <= i < n ==> h[i][i] == g[i][i]
  }

  function Put(g: seq<seq<real>>, n: nat, i: nat, j: nat, v: real): (h: seq<seq<real>>)
    requires IsSquare(g, n) && i < n && j < n
    ensures IsSquare(h, n)
  {
    g[i := g[i][j := v]]
  }

  /** The largest d(idx, k) + d(k, col) over the intermediates k < upTo with
      d(idx, k) != 0, or None when there is none. */
  function BestVia(g: seq<seq<real>>, n: nat, idx: nat, col: nat, upTo: nat): Option<real>
    requires IsSquare(g, n) && idx < n && col < n && upTo <= n
  {
    if upTo == 0 then None
    else
      var best := BestVia(g, n, idx, col, upTo - 1);
      var k := upTo - 1;
      if g[idx][k] == 0.0 then best
      else
        var c := g[idx][k] + g[k][col];
        if best.None? || best.value < c then Some(c) else best
  }

  /** BestVia is the maximum over the candidate intermediates, and it exists
      exactly when some candidate does. */
  lemma {:induction false} BestViaIsMax(g: seq<seq<real>>, n: nat, idx: nat, col: nat, upTo: nat)
    requires IsSquare(g, n) && idx < n && col < n && upTo <= n
    ensures BestVia(g, n, idx, col, upTo).Some? <==>
      exists k :: 0 <= k < upTo && g[idx][k] != 0.0
    ensures BestVia(g, n, idx, col, upTo).Some? ==>
      (forall k :: 0 <= k < upTo && g[idx][k] != 0.0 ==>
         g[idx][k] + g[k][col] <= BestVia(g, n, idx, col, upTo).value)
      && (exists k :: 0 <= k < upTo && g[idx][k] != 0.0 &&
                      g[idx][k] + g[k][col] == BestVia(g, n, idx, col, upTo).value)
  {
    if upTo > 0 {
      BestViaIsMax(g, n, idx, col, upTo - 1);
    }
  }

  /** The sweep's visit of cell (idx, col). The None branch is where pandas
      would write NaN; SweepDefined keeps the sweep away from it. */
  function Step(g: seq<seq<real>>, n: nat, col: nat, idx: nat): (h: seq<seq<real>>)
    requires IsSquare(g, n) && col < n && idx < n
    ensures IsSquare(h, n)
  {
    if g[idx][col] == 0.0 && idx != col then
      match BestVia(g, n, idx, col, n)
      case Some(v) => Put(Put(g, n, idx, col, v), n, col, idx, v)
      case None => g
    else g
  }

  /** The matrix after the rows 0 .. rows - 1 of column col have been visited. */
  function SweepRows(g: seq<seq<real>>, n: nat, col: nat, rows: nat): (h: seq<seq<real>>)
    requires IsSquare(g, n) && col < n && rows <= n
    ensures IsSquare(h, n)
  {
    if rows == 0 then g else Step(SweepRows(g, n, col, rows - 1), n, col, rows - 1)
  }

  /** The matrix after the columns 0 .. cols - 1 have been swept. */
  function SweepCols(g: seq<seq<real>>, n: nat, cols: nat): (h: seq<seq<real>>)
    requires IsSquare(g, n) && cols <= n
    ensures IsSquare(h, n)
  {
    if cols == 0 then g else SweepRows(SweepCols(g, n, cols - 1), n, cols - 1, n)
  }

  /** The matrix after the whole sweep. */
  function Complete(g: seq<seq<real>>, n: nat): (h: seq<seq<real>>)
    requires IsSquare(g, n)
    ensures IsSquare(h, n)
  {
    SweepCols(g, n, n)
  }

  /** The cells one visit writes: (idx, col) and (col, idx), when the cell
      is 0 off the diagonal and an intermediate exists. */
  lemma StepCells(g: seq<seq<real>>, n: nat, col: nat, idx: nat)
    requires IsSquare(g, n) && col < n && idx < n
    requires g[idx][col] == 0.0 && idx != col && BestVia(g, n, idx, col, n).Some?
    ensures forall i, j :: 0 <= i < n && 0 <= j < n ==>
      Step(g, n, col, idx)[i][j] ==
        if (i == idx && j == col) || (i == col && j == idx) then BestVia(g, n, idx, col, n).value
        else g[i][j]
  {
  }

  /** One visit keeps the matrix symmetric and rewrites only a zero
      off-diagonal pair. */
  lemma StepShape(g: seq<seq<real>>, n: nat, col: nat, idx: nat)
    requires IsSquare(g, n) && Symmetric(g, n) && col < n && idx < n
    ensures Symmetric(Step(g, n, col, idx), n)
    ensures KeepsNonzero(g, Step(g, n, col, idx), n)
    ensures SameDiagonal(g, Step(g, n, col, idx), n)
  {
    if g[idx][col] == 0.0 && idx != col && BestVia(g, n, idx, col, n).Some? {
      StepCells(g, n, col, idx);
    }
  }

  lemma KeptRowsStayLinked(g: seq<seq<real>>, h: seq<seq<real>>, n: nat)
    requires IsSquare(g, n) && IsSquare(h, n) && KeepsNonzero(g, h, n) && RowsLinked(g, n)
    ensures RowsLinked(h, n)
  {
    forall i | 0 <= i < n ensures RowLinked(h, n, i) {
      assert RowLinked(g, n, i);
      var k :| 0 <= k < n && g[i][k] != 0.0;
      assert h[i][k] == g[i][k];
    }
  }

  /** On a non-negative matrix with linked rows a visit keeps the matrix
      non-negative and leaves the visited off-diagonal cell positive. */
  lemma StepPositive(g: seq<seq<real>>, n: nat, col: nat, idx: nat)
    requires IsSquare(g, n) && Symmetric(g, n) && NonNegative(g, n) && RowsLinked(g, n)
    requires col < n && idx < n
    ensures NonNegative(Step(g, n, col, idx), n)
    ensures idx != col ==> Step(g, n, col, idx)[idx][col] > 0.0
  {
    BestViaIsMax(g, n, idx, col, n);
    assert RowLinked(g, n, idx);
    if g[idx][col] == 0.0 && idx != col {
      var v := BestVia(g, n, idx, col, n).value;
      var k :| 0 <= k < n && g[idx][k] != 0.0 && g[idx][k] + g[k][col] == v;
      assert g[idx][k] >= 0.0 && g[k][col] >= 0.0;
      StepCells(g, n, col, idx);
    }
  }

  lemma {:induction false} SweepRowsShape(g: seq<seq<real>>, n: nat, col: nat, rows: nat)
    requires IsSquare(g, n) && Symmetric(g, n) && col < n && rows <= n
    ensures Symmetric(SweepRows(g, n, col, rows), n)
    ensures KeepsNonzero(g, SweepRows(g, n, col, rows), n)
    ensures SameDiagonal(g, SweepRows(g, n, col, rows), n)
  {
    if rows > 0 {
      SweepRowsShape(g, n, col, rows - 1);
      StepShape(SweepRows(g, n, col, rows - 1), n, col, rows - 1);
    }
  }

  lemma {:induction false} SweepRowsPositive(g: seq<seq<real>>, n: nat, col: nat, rows: nat)
    requires IsSquare(g, n) && Symmetric(g, n) && NonNegative(g, n) && RowsLinked(g, n)
    requires col < n && rows <= n
    ensures RowsLinked(SweepRows(g, n, col, rows), n)
    ensures NonNegative(SweepRows(g, n, col, rows), n)
    ensures forall i :: 0 <= i < rows && i != col ==> SweepRows(g, n, col, rows)[i][col] > 0.0
  {
    if rows > 0 {
      var p := SweepRows(g, n, col, rows - 1);
      SweepRowsPositive(g, n, col, rows - 1);
      SweepRowsShape(g, n, col, rows - 1);
      StepShape(p, n, col, rows - 1);
      StepPositive(p, n, col, rows - 1);
      KeptRowsStayLinked(p, Step(p, n, col, rows - 1), n);
    }
  }

  lemma {:induction false} SweepRowsLinked(g: seq<seq<real>>, n: nat, col: nat, rows: nat)
    requires IsSquare(g, n) && Symmetric(g, n) && RowsLinked(g, n) && col < n && rows <= n
    ensures RowsLinked(SweepRows(g, n, col, rows), n)
  {
    SweepRowsShape(g, n, col, rows);
    KeptRowsStayLinked(g, SweepRows(g, n, col, rows), n);
  }

  lemma {:induction false} SweepColsShape(g: seq<seq<real>>, n: nat, cols: nat)
    requires IsSquare(g, n) && Symmetric(g, n) && cols <= n
    ensures Symmetric(SweepCols(g, n, cols), n)
    ensures KeepsNonzero(g, SweepCols(g, n, cols), n)
    ensures SameDiagonal(g, SweepCols(g, n, cols), n)
  {
    if cols > 0 {
      SweepColsShape(g, n, cols - 1);
      SweepRowsShape(SweepCols(g, n, cols - 1), n, cols - 1, n);
    }
  }

  lemma {:induction false} SweepColsLinked(g: seq<seq<real>>, n: nat, cols: nat)
    requires IsSquare(g, n) && Symmetric(g, n) && RowsLinked(g, n) && cols <= n
    ensures RowsLinked(SweepCols(g, n, cols), n)
  {
    SweepColsShape(g, n, cols);
    KeptRowsStayLinked(g, SweepCols(g, n, cols), n);
  }

  lemma {:induction false} SweepColsPositive(g: seq<seq<real>>, n: nat, cols: nat)
    requires IsSquare(g, n) && Symmetric(g, n) && NonNegative(g, n) && RowsLinked(g, n)
    requires cols <= n
    ensures NonNegative(SweepCols(g, n, cols), n)
    ensures forall i, c :: 0 <= i < n && 0 <= c < cols && i != c ==> SweepCols(g, n, cols)[i][c] > 0.0
  {
    if cols > 0 {
      var p := SweepCols(g, n, cols - 1);
      SweepColsPositive(g, n, cols - 1);
      SweepColsShape(g, n, cols - 1);
      SweepColsLinked(g, n, cols - 1);
      SweepRowsPositive(p, n, cols - 1, n);
      SweepRowsShape(p, n, cols - 1, n);
    }
  }

  // ---------------------------------------------------------------------
  // Sweeps in which no search for intermediates comes back empty.

  /** The visit of (idx, col) finds an intermediate whenever it searches: a
      zero cell off the diagonal lies in a row with some nonzero cell. */
  ghost predicate VisitDefined(g: seq<seq<real>>, n: nat, col: nat, idx: nat)
    requires IsSquare(g, n) && col < n && idx < n
  {
    g[idx][col] == 0.0 && idx != col ==> RowLinked(g, n, idx)
  }

  /** The visits of rows 0 .. rows - 1 of column col, each on the matrix as
      the earlier visits left it, are all defined. */
  ghost predicate RowVisitsDefined(g: seq<seq<real>>, n: nat, col: nat, rows: nat)
    requires IsSquare(g, n) && col < n && rows <= n
  {
    rows == 0 ||
    (RowVisitsDefined(g, n, col, rows - 1) && VisitDefined(SweepRows(g, n, col, rows - 1), n, col, rows - 1))
  }

  ghost predicate ColVisitsDefined(g: seq<seq<real>>, n: nat, cols: nat)
    requires IsSquare(g, n) && cols <= n
  {
    cols == 0 ||
    (ColVisitsDefined(g, n, cols - 1) && RowVisitsDefined(SweepCols(g, n, cols - 1), n, cols - 1, n))
  }

  /** No visit of the whole sweep takes `max()` over an empty set of
      intermediates, so the source writes no NaN. */
  ghost predicate SweepDefined(g: seq<seq<real>>, n: nat)
    requires IsSquare(g, n)
  {
    ColVisitsDefined(g, n, n)
  }

  lemma {:induction false} RowVisitsDefinedAt(g: seq<seq<real>>, n: nat, col: nat, rows: nat, r: nat)
    requires IsSquare(g, n) && col < n && rows <= n && r < rows && RowVisitsDefined(g, n, col, rows)
    ensures VisitDefined(SweepRows(g, n, col, r), n, col, r)
  {
    if r < rows - 1 {
      RowVisitsDefinedAt(g, n, col, rows - 1, r);
    }
  }

  lemma {:induction false} ColVisitsDefinedAt(g: seq<seq<real>>, n: nat, cols: nat, c: nat)
    requires IsSquare(g, n) && cols <= n && c < cols && ColVisitsDefined(g, n, cols)
    ensures RowVisitsDefined(SweepCols(g, n, c), n, c, n)
  {
    if c < cols - 1 {
      ColVisitsDefinedAt(g, n, cols - 1, c);
    }
  }

  lemma {:induction false} LinkedRowVisitsDefined(g: seq<seq<real>>, n: nat, col: nat, rows: nat)
    requires IsSquare(g, n) && Symmetric(g, n) && RowsLinked(g, n) && col < n && rows <= n
    ensures RowVisitsDefined(g, n, col, rows)
  {
    if rows > 0 {
      LinkedRowVisitsDefined(g, n, col, rows - 1);
      SweepRowsLinked(g, n, col, rows - 1);
      assert RowLinked(SweepRows(g, n, col, rows - 1), n, rows - 1);
    }
  }

  lemma {:induction false} LinkedColVisitsDefined(g: seq<seq<real>>, n: nat, cols: nat)
    requires IsSquare(g, n) && Symmetric(g, n) && RowsLinked(g, n) && cols <= n
    ensures ColVisitsDefined(g, n, cols)
  {
    if cols > 0 {
      LinkedColVisitsDefined(g, n, cols - 1);
      SweepColsShape(g, n, cols - 1);
      SweepColsLinked(g, n, cols - 1);
      LinkedRowVisitsDefined(SweepCols(g, n, cols - 1), n, cols - 1, n);
    }
  }

  /** A nonzero cell in every row is enough for the whole sweep to be defined:
      the sweep never turns a nonzero cell into 0, so rows stay linked. */
  lemma LinkedSweepDefined(g: seq<seq<real>>, n: nat)
    requires IsSquare(g, n) && Symmetric(g, n) && RowsLinked(g, n)
    ensures SweepDefined(g, n)
  {
    LinkedColVisitsDefined(g, n, n);
  }

  /** The whole sweep keeps a symmetric matrix symmetric and rewrites only
      cells that were 0 off the diagonal, so every nonzero cell and the whole
      diagonal keep their values. */
  lemma CompleteKeeps(g: seq<seq<real>>, n: nat)
    requires IsSquare(g, n) && Symmetric(g, n)
    ensures Symmetric(Complete(g, n), n)
    ensures forall i, j :: 0 <= i < n && 0 <= j < n && Complete(g, n)[i][j] != g[i][j] ==>
      g[i][j] == 0.0 && i != j
  {
    SweepColsShape(g, n, n);
  }

  /** One sweep suffices to give every off-diagonal cell a positive value when
      the distances are non-negative and every row has a nonzero cell. */
  lemma CompleteFillsEveryCell(g: seq<seq<real>>, n: nat)
    requires IsSquare(g, n) && Symmetric(g, n) && NonNegative(g, n) && RowsLinked(g, n)
    ensures forall i, j :: 0 <= i < n && 0 <= j < n && i != j ==> Complete(g, n)[i][j] > 0.0
  {
    SweepColsPositive(g, n, n);
  }

  /** A visited zero cell takes the largest sum through an intermediate of the
      matrix as it stands at that moment. */
  lemma StepFillsWithMax(g: seq<seq<real>>, n: nat, col: nat, idx: nat)
    requires IsSquare(g, n) && col < n && idx < n
    requires g[idx][col] == 0.0 && idx != col
    requires exists k :: 0 <= k < n && g[idx][k] != 0.0
    ensures var v := Step(g, n, col, idx)[idx][col];
      v == Step(g, n, col, idx)[col][idx]
      && (forall k :: 0 <= k < n && g[idx][k] != 0.0 ==> g[idx][k] + g[k][col] <= v)
      && (exists k :: 0 <= k < n && g[idx][k] != 0.0 && g[idx][k] + g[k][col] == v)
  {
    BestViaIsMax(g, n, idx, col, n);
  }

  // ---------------------------------------------------------------------
  // The sweep in place.

  /** `cumulative_distance.max()` for cell (idx, col): the largest
      d(idx, k) + d(k, col) over the k with d(idx, k) != 0. */
  method BestIntermediate(m: array2<real>, idx: nat, col: nat) returns (found: bool, best: real)
    requires m.Length0 == m.Length1 && idx < m.Length0 && col < m.Length0
    ensures found == BestVia(Grid(m), m.Length0, idx, col, m.Length0).Some?
    ensures found ==> best == BestVia(Grid(m), m.Length0, idx, col, m.Length0).value
    ensures found <==> exists k :: 0 <= k < m.Length0 && m[idx, k] != 0.0
    ensures found ==> forall k :: 0 <= k < m.Length0 && m[idx, k] != 0.0 ==> m[idx, k] + m[k, col] <= best
    ensures found ==> exists k :: 0 <= k < m.Length0 && m[idx, k] != 0.0 && m[idx, k] + m[k, col] == best
  {
    var n := m.Length0;
    ghost var g := Grid(m);
    found, best := false, 0.0;
    var k := 0;
    while k < n
      invariant 0 <= k <= n
      invariant found == BestVia(g, n, idx, col, k).Some?
      invariant found ==> best == BestVia(g, n, idx, col, k).value
    {
      if m[idx, k] != 0.0 {
        var c := m[idx, k] + m[k, col];
        if !found || best < c {
          found, best := true, c;
        }
      }
      k := k + 1;
    }
    BestViaIsMax(g, n, idx, col, n);
  }

  /** The body of the inner loop: visit cell (idx, col). */
  method VisitCell(m: array2<real>, col: nat, idx: nat)
    requires m.Length0 == m.Length1 && col < m.Length0 && idx < m.Length0
    requires VisitDefined(Grid(m), m.Length0, col, idx)
    modifies m
    ensures Grid(m) == Step(old(Grid(m)), m.Length0, col, idx)
  {
    var n := m.Length0;
    ghost var a := Grid(m);
    if m[idx, col] == 0.0 && idx != col {
      var found, best := BestIntermediate(m, idx, col);
      assert RowLinked(a, n, idx);
      BestViaIsMax(a, n, idx, col, n);
      assert found;
      m[idx, col] := best;
      m[col, idx] := best;
      GridEquals(m, Step(a, n, col, idx));
    }
  }

  /** The nested column/row loop of the completion, in place. The source
      picks the intermediates from column idx and the model from row idx; the
      table it is given is symmetric, and the sweep keeps it so
      (SweepRowsShape, SweepColsShape), so the two agree. */
  method CompleteInPlace(m: array2<real>)
    requires m.Length0 == m.Length1
    requires Symmetric(Grid(m), m.Length0) && SweepDefined(Grid(m), m.Length0)
    modifies m
    ensures Grid(m) == Complete(old(Grid(m)), m.Length0)
  {
    var n := m.Length0;
    ghost var g0 := Grid(m);
    var col := 0;
    while col < n
      invariant 0 <= col <= n
      invariant Grid(m) == SweepCols(g0, n, col)
    {
      ghost var s := SweepCols(g0, n, col);
      ColVisitsDefinedAt(g0, n, n, col);
      var idx := 0;
      while idx < n
        invariant 0 <= idx <= n
        invariant Grid(m) == SweepRows(s, n, col, idx)
      {
        RowVisitsDefinedAt(s, n, col, n, idx);
        VisitCell(m, col, idx);
        idx := idx + 1;
      }
      col := col + 1;
    }
  }

  // ---------------------------------------------------------------------
  // The whole operation.

  /** Every point id has a row with a nonzero distance to some point, so no
      search for intermediates comes back empty (pandas would write NaN). */
  ghost predicate NoIsolatedPoint(edges: seq<Edge>) {
    forall a :: a in Endpoints(edges) ==> exists b :: LastDistance(edges, a, b) != 0.0
  }

  predicate NoSelfEdge(edges: seq<Edge>) {
    forall i :: 0 <= i < |edges| ==> edges[i].idStart != edges[i].idEnd
  }

  predicate NonNegativeEdges(edges: seq<Edge>) {
    forall i :: 0 <= i < |edges| ==> edges[i].distance >= 0.0
  }

  lemma DirectGridSymmetric(edges: seq<Edge>, ids: seq<int>)
    ensures Symmetric(DirectGrid(edges, ids), |ids|)
  {
    forall a, b { LastDistanceIsLastRow(edges, a, b); }
  }

  lemma DirectGridLinked(edges: seq<Edge>)
    requires NoIsolatedPoint(edges)
    ensures RowsLinked(DirectGrid(edges, PointIds(edges)), |PointIds(edges)|)
  {
    var ids := PointIds(edges);
    var g := DirectGrid(edges, ids);
    forall i | 0 <= i < |ids| ensures RowLinked(g, |ids|, i) {
      var a := ids[i];
      assert a in Endpoints(edges);
      var b :| LastDistance(edges, a, b) != 0.0;
      NonzeroHasRow(edges, a, b);
      var k := IndexOf(ids, b);
      assert g[i][k] != 0.0;
    }
  }

  /** With no isolated point the sweep over the direct table is defined. */
  lemma IsolationFreeSweepDefined(edges: seq<Edge>)
    requires NoIsolatedPoint(edges)
    ensures SweepDefined(DirectGrid(edges, PointIds(edges)), |PointIds(edges)|)
  {
    DirectGridSymmetric(edges, PointIds(edges));
    DirectGridLinked(edges);
    LinkedSweepDefined(DirectGrid(edges, PointIds(edges)), |PointIds(edges)|);
  }

  /** `calculate_distance_matrix`: the sorted id axis and the completed matrix. */
  method CalculateDistanceMatrix(edges: seq<Edge>) returns (ids: seq<int>, m: array2<real>)
    requires SweepDefined(DirectGrid(edges, PointIds(edges)), |PointIds(edges)|)
    ensures fresh(m)
    ensures ids == PointIds(edges)
    ensures m.Length0 == |ids| && m.Length1 == |ids|
    ensures Grid(m) == Complete(DirectGrid(edges, ids), |ids|)
  {
    ids := PointIds(edges);
    AscendingIsDistinct(ids);
    m := FillDirect(edges, ids);
    GridEquals(m, DirectGrid(edges, ids));
    DirectGridSymmetric(edges, ids);
    CompleteInPlace(m);
  }

  /** The completed table is symmetric; every nonzero direct distance (after
      last-row-wins) is kept; the diagonal stays 0 without self-edges. */
  lemma CompletedTableKeepsDirect(edges: seq<Edge>)
    ensures var ids := PointIds(edges);
      var c := Complete(DirectGrid(edges, ids), |ids|);
      Symmetric(c, |ids|)
      && (forall i, j :: 0 <= i < |ids| && 0 <= j < |ids| && LastDistance(edges, ids[i], ids[j]) != 0.0 ==>
            c[i][j] == LastDistance(edges, ids[i], ids[j]))
      && (NoSelfEdge(edges) ==> forall i :: 0 <= i < |ids| ==> c[i][i] == 0.0)
  {
    var ids := PointIds(edges);
    var g := DirectGrid(edges, ids);
    DirectGridSymmetric(edges, ids);
    CompleteKeeps(g, |ids|);
    if NoSelfEdge(edges) {
      forall i | 0 <= i < |ids| ensures g[i][i] == 0.0 {
        LastDistanceIsLastRow(edges, ids[i], ids[i]);
      }
    }
  }

  /** With non-negative distances and no isolated point, every pair of distinct
      points has a positive distance after the single sweep. */
  lemma CompletedTableIsFull(edges: seq<Edge>)
    requires NoIsolatedPoint(edges) && NonNegativeEdges(edges)
    ensures var ids := PointIds(edges);
      var c := Complete(DirectGrid(edges, ids), |ids|);
      forall i, j :: 0 <= i < |ids| && 0 <= j < |ids| && i != j ==> c[i][j] > 0.0
  {
    var ids := PointIds(edges);
    var g := DirectGrid(edges, ids);
    DirectGridSymmetric(edges, ids);
    DirectGridLinked(edges);
    forall a, b ensures LastDistance(edges, a, b) >= 0.0 {
      LastDistanceNonNegative(edges, a, b);
    }
    CompleteFillsEveryCell(g, |ids|);
  }

  lemma {:induction false} LastDistanceNonNegative(edges: seq<Edge>, a: int, b: int)
    requires NonNegativeEdges(edges)
    ensures LastDistance(edges, a, b) >= 0.0
  {
    if |edges| > 0 {
      LastDistanceNonNegative(edges[..|edges| - 1], a, b);
    }
  }

  // ---------------------------------------------------------------------
  // Worked examples.

  lemma GridRowsEqual(g: seq<seq<real>>, h: seq<seq<real>>, n: nat)
    requires IsSquare(g, n) && IsSquare(h, n)
    requires forall i, j :: 0 <= i < n && 0 <= j < n ==> g[i][j] == h[i][j]
    ensures g == h
  {
    forall i | 0 <= i < n ensures g[i] == h[i] {}
  }

  lemma ChainIds()
    ensures PointIds([Edge(1, 2, 10.0), Edge(2, 3, 10.0)]) == [1, 2, 3]
  {
    var edges := [Edge(1, 2, 10.0), Edge(2, 3, 10.0)];
    assert edges[..1] == [Edge(1, 2, 10.0)];
    assert edges[..1][..0] == [];
    assert Endpoints(edges) == [1, 2, 2, 3];
    var xs := [1, 2, 2, 3];
    assert xs[..3] == [1, 2, 2] && xs[..3][..2] == [1, 2] && xs[..3][..2][..1] == [1];
    assert SortedDistinct([1]) == [1];
    assert SortedDistinct([1, 2]) == [1, 2];
    assert SortedDistinct([1, 2, 2]) == [1, 2];
  }

  lemma ChainDirect()
    ensures DirectGrid([Edge(1, 2, 10.0), Edge(2, 3, 10.0)], [1, 2, 3]) ==
      [[0.0, 10.0, 0.0], [10.0, 0.0, 10.0], [0.0, 10.0, 0.0]]
  {
    var edges := [Edge(1, 2, 10.0), Edge(2, 3, 10.0)];
    var g := DirectGrid(edges, [1, 2, 3]);
    var g0 := [[0.0, 10.0, 0.0], [10.0, 0.0, 10.0], [0.0, 10.0, 0.0]];
    assert edges[..1] == [Edge(1, 2, 10.0)];
    assert edges[..1][..0] == [];
    forall i, j | 0 <= i < 3 && 0 <= j < 3 ensures g[i][j] == g0[i][j] {
      var a, b := [1, 2, 3][i], [1, 2, 3][j];
      assert LastDistance(edges, a, b) == if Connects(edges[1], a, b) then 10.0
        else if Connects(edges[0], a, b) then 10.0 else 0.0;
    }
    GridRowsEqual(g, g0, 3);
  }

  lemma ChainSweep()
    ensures Complete([[0.0, 10.0, 0.0], [10.0, 0.0, 10.0], [0.0, 10.0, 0.0]], 3) ==
      [[0.0, 10.0, 20.0], [10.0, 0.0, 10.0], [20.0, 10.0, 0.0]]
  {
    var g0 := [[0.0, 10.0, 0.0], [10.0, 0.0, 10.0], [0.0, 10.0, 0.0]];
    var g1 := [[0.0, 10.0, 20.0], [10.0, 0.0, 10.0], [20.0, 10.0, 0.0]];
    assert BestVia(g0, 3, 2, 0, 1) == None;
    assert BestVia(g0, 3, 2, 0, 2) == Some(20.0);
    assert BestVia(g0, 3, 2, 0, 3) == Some(20.0);
    assert SweepRows(g0, 3, 0, 2) == g0;
    var half := [[0.0, 10.0, 0.0], [10.0, 0.0, 10.0], [20.0, 10.0, 0.0]];
    assert g0[2][0 := 20.0] == [20.0, 10.0, 0.0];
    assert g0[2 := [20.0, 10.0, 0.0]] == half;
    assert half[0][2 := 20.0] == [0.0, 10.0, 20.0];
    assert half[0 := [0.0, 10.0, 20.0]] == g1;
    assert Step(g0, 3, 0, 2) == g1;
    assert SweepCols(g0, 3, 1) == g1;
    assert SweepRows(g1, 3, 1, 3) == g1;
    assert SweepCols(g0, 3, 2) == g1;
    assert SweepRows(g1, 3, 2, 3) == g1;
  }

  /** Edges (1, 2, 10) and (2, 3, 10): the ids are 1, 2, 3 and the sweep sets
      the distance between 1 and 3, both ways, to 10 + 10 through 2. */
  lemma ChainExample()
    ensures var edges := [Edge(1, 2, 10.0), Edge(2, 3, 10.0)];
      var ids := PointIds(edges);
      ids == [1, 2, 3] &&
      Complete(DirectGrid(edges, ids), 3) == [[0.0, 10.0, 20.0], [10.0, 0.0, 10.0], [20.0, 10.0, 0.0]]
  {
    ChainIds();
    ChainDirect();
    ChainSweep();
  }

  /** A chain of four points at 10 apart. Cell (3, 0) is reached through the
      value 20 the sweep wrote into (2, 0) a moment earlier, and cell (3, 1) then
      takes the larger of 30 + 10 (through point 0) and 10 + 10 (through
      point 2): 40, not the 20 of the chain itself. */
  lemma LaterCellsSeeEarlierFills()
    ensures Complete([[0.0, 10.0, 0.0, 0.0], [10.0, 0.0, 10.0, 0.0], [0.0, 10.0, 0.0, 10.0], [0.0, 0.0, 10.0, 0.0]], 4) ==
      [[0.0, 10.0, 20.0, 30.0], [10.0, 0.0, 10.0, 40.0], [20.0, 10.0, 0.0, 10.0], [30.0, 40.0, 10.0, 0.0]]
  {
    var g0 := [[0.0, 10.0, 0.0, 0.0], [10.0, 0.0, 10.0, 0.0], [0.0, 10.0, 0.0, 10.0], [0.0, 0.0, 10.0, 0.0]];
    var g1 := [[0.0, 10.0, 20.0, 0.0], [10.0, 0.0, 10.0, 0.0], [20.0, 10.0, 0.0, 10.0], [0.0, 0.0, 10.0, 0.0]];
    var g2 := [[0.0, 10.0, 20.0, 30.0], [10.0, 0.0, 10.0, 0.0], [20.0, 10.0, 0.0, 10.0], [30.0, 0.0, 10.0, 0.0]];
    var g3 := [[0.0, 10.0, 20.0, 30.0], [10.0, 0.0, 10.0, 40.0], [20.0, 10.0, 0.0, 10.0], [30.0, 40.0, 10.0, 0.0]];
    // column 0
    assert SweepRows(g0, 4, 0, 2) == g0;
    assert BestVia(g0, 4, 2, 0, 4) == Some(20.0);
    assert g0[2][0 := 20.0] == g1[2];
    assert g0[2 := g1[2]][0][2 := 20.0] == g1[0];
    assert g0[2 := g1[2]][0 := g1[0]] == g1;
    assert SweepRows(g0, 4, 0, 3) == g1;
    assert BestVia(g1, 4, 3, 0, 4) == Some(30.0);
    assert g1[3][0 := 30.0] == g2[3];
    assert g1[3 := g2[3]][0][3 := 30.0] == g2[0];
    assert g1[3 := g2[3]][0 := g2[0]] == g2;
    assert SweepCols(g0, 4, 1) == g2;
    // column 1
    assert SweepRows(g2, 4, 1, 3) == g2;
    assert BestVia(g2, 4, 3, 1, 4) == Some(40.0);
    assert g2[3][1 := 40.0] == g3[3];
    assert g2[3 := g3[3]][1][3 := 40.0] == g3[1];
    assert g2[3 := g3[3]][1 := g3[1]] == g3;
    assert SweepCols(g0, 4, 2) == g3;
    assert SweepRows(g3, 4, 2, 4) == g3;
    assert SweepRows(g3, 4, 3, 4) == g3;
  }

  /** Edges (1, 2, 0) and (2, 3, 5): id 1 has no nonzero direct distance,
      yet column 1's visit of (2, 1) writes 5 through point 3 before row 1 is
      ever searched, and the visit of (3, 1) then writes 10. */
  lemma ZeroEdgeIsolated()
    ensures !NoIsolatedPoint([Edge(1, 2, 0.0), Edge(2, 3, 5.0)])
  {
    var edges := [Edge(1, 2, 0.0), Edge(2, 3, 5.0)];
    assert edges[..1] == [Edge(1, 2, 0.0)];
    assert edges[..1][..0] == [];
    assert 1 in Endpoints(edges) by {
      assert Mentions(edges, 1) by {
        assert edges[0].idStart == 1;
      }
    }
    forall b ensures LastDistance(edges, 1, b) == 0.0 {
      assert !Connects(edges[1], 1, b);
      assert LastDistance(edges, 1, b) == LastDistance(edges[..1], 1, b);
    }
  }

  lemma ZeroEdgeIds()
    ensures PointIds([Edge(1, 2, 0.0), Edge(2, 3, 5.0)]) == [1, 2, 3]
  {
    var edges := [Edge(1, 2, 0.0), Edge(2, 3, 5.0)];
    assert edges[..1] == [Edge(1, 2, 0.0)];
    assert edges[..1][..0] == [];
    assert Endpoints(edges) == [1, 2, 2, 3];
    var xs := [1, 2, 2, 3];
    assert xs[..3] == [1, 2, 2] && xs[..3][..2] == [1, 2] && xs[..3][..2][..1] == [1];
    assert SortedDistinct([1]) == [1];
    assert SortedDistinct([1, 2]) == [1, 2];
    assert SortedDistinct([1, 2, 2]) == [1, 2];
  }

  lemma ZeroEdgeDirect()
    ensures DirectGrid([Edge(1, 2, 0.0), Edge(2, 3, 5.0)], [1, 2, 3]) ==
      [[0.0, 0.0, 0.0], [0.0, 0.0, 5.0], [0.0, 5.0, 0.0]]
  {
    var edges := [Edge(1, 2, 0.0), Edge(2, 3, 5.0)];
    assert edges[..1] == [Edge(1, 2, 0.0)];
    assert edges[..1][..0] == [];
    var g := DirectGrid(edges, [1, 2, 3]);
    var g0 := [[0.0, 0.0, 0.0], [0.0, 0.0, 5.0], [0.0, 5.0, 0.0]];
    forall i, j | 0 <= i < 3 && 0 <= j < 3 ensures g[i][j] == g0[i][j] {
      var a, b := [1, 2, 3][i], [1, 2, 3][j];
      assert LastDistance(edges, a, b) == if Connects(edges[1], a, b) then 5.0 else 0.0;
    }
    GridRowsEqual(g, g0, 3);
  }

  lemma ZeroEdgeSweep()
    ensures var g0 := [[0.0, 0.0, 0.0], [0.0, 0.0, 5.0], [0.0, 5.0, 0.0]];
      SweepDefined(g0, 3) && Complete(g0, 3) == [[0.0, 5.0, 10.0], [5.0, 0.0, 5.0], [10.0, 5.0, 0.0]]
  {
    var g0 := [[0.0, 0.0, 0.0], [0.0, 0.0, 5.0], [0.0, 5.0, 0.0]];
    var g1 := [[0.0, 5.0, 0.0], [5.0, 0.0, 5.0], [0.0, 5.0, 0.0]];
    var g2 := [[0.0, 5.0, 10.0], [5.0, 0.0, 5.0], [10.0, 5.0, 0.0]];
    // column 0, row 1: through point 3
    assert SweepRows(g0, 3, 0, 1) == g0;
    assert BestVia(g0, 3, 1, 0, 3) == Some(5.0);
    assert g0[1][0 := 5.0] == g1[1];
    assert g0[1 := g1[1]][0][1 := 5.0] == g1[0];
    assert g0[1 := g1[1]][0 := g1[0]] == g1;
    assert SweepRows(g0, 3, 0, 2) == g1;
    // column 0, row 2: through point 2, using the cell just written
    assert BestVia(g1, 3, 2, 0, 3) == Some(10.0);
    assert g1[2][0 := 10.0] == g2[2];
    assert g1[2 := g2[2]][0][2 := 10.0] == g2[0];
    assert g1[2 := g2[2]][0 := g2[0]] == g2;
    assert SweepCols(g0, 3, 1) == g2;
    assert RowLinked(g0, 3, 1) by { assert g0[1][2] != 0.0; }
    assert RowLinked(g1, 3, 2) by { assert g1[2][1] != 0.0; }
    assert RowVisitsDefined(g0, 3, 0, 3);
    // columns 1 and 2 find nothing left to fill
    assert SweepRows(g2, 3, 1, 3) == g2;
    assert RowVisitsDefined(g2, 3, 1, 3);
    assert SweepCols(g0, 3, 2) == g2;
    assert SweepRows(g2, 3, 2, 3) == g2;
    assert RowVisitsDefined(g2, 3, 2, 3);
  }

  /** Edges (1, 2, 0) and (2, 3, 5) fail NoIsolatedPoint, yet the sweep is
      defined and completes the table to 5 between 1 and 2 and 10 between 1
      and 3. */
  lemma ZeroEdgeCompletes()
    ensures var edges := [Edge(1, 2, 0.0), Edge(2, 3, 5.0)];
      !NoIsolatedPoint(edges) &&
      PointIds(edges) == [1, 2, 3] &&
      SweepDefined(DirectGrid(edges, [1, 2, 3]), 3) &&
      Complete(DirectGrid(edges, [1, 2, 3]), 3) == [[0.0, 5.0, 10.0], [5.0, 0.0, 5.0], [10.0, 5.0, 0.0]]
  {
    ZeroEdgeIsolated();
    ZeroEdgeIds();
    ZeroEdgeDirect();
    ZeroEdgeSweep();
  }

  lemma DisconnectedEndpoints()
    ensures Endpoints([Edge(1, 2, 5.0), Edge(3, 4, 7.0)]) == [1, 2, 3, 4]
  {
    var edges := [Edge(1, 2, 5.0), Edge(3, 4, 7.0)];
    assert edges[..1] == [Edge(1, 2, 5.0)];
    assert edges[..1][..0] == [];
  }

  lemma DisconnectedIds()
    ensures PointIds([Edge(1, 2, 5.0), Edge(3, 4, 7.0)]) == [1, 2, 3, 4]
  {
    DisconnectedEndpoints();
    SortedDistinctOfAscending([1, 2, 3, 4]);
  }

  lemma DisconnectedDirect()
    ensures DirectGrid([Edge(1, 2, 5.0), Edge(3, 4, 7.0)], [1, 2, 3, 4]) ==
      [[0.0, 5.0, 0.0, 0.0], [5.0, 0.0, 0.0, 0.0], [0.0, 0.0, 0.0, 7.0], [0.0, 0.0, 7.0, 0.0]]
  {
    var edges := [Edge(1, 2, 5.0), Edge(3, 4, 7.0)];
    assert edges[..1] == [Edge(1, 2, 5.0)];
    assert edges[..1][..0] == [];
    var g := DirectGrid(edges, [1, 2, 3, 4]);
    var g0 := [[0.0, 5.0, 0.0, 0.0], [5.0, 0.0, 0.0, 0.0], [0.0, 0.0, 0.0, 7.0], [0.0, 0.0, 7.0, 0.0]];
    forall i, j | 0 <= i < 4 && 0 <= j < 4 ensures g[i][j] == g0[i][j] {
      var a, b := [1, 2, 3, 4][i], [1, 2, 3, 4][j];
      assert LastDistance(edges, a, b) ==
        if Connects(edges[1], a, b) then 7.0 else if Connects(edges[0], a, b) then 5.0 else 0.0;
    }
    GridRowsEqual(g, g0, 4);
  }

  /** The visit of (id 3, id 1) takes intermediate 4, whose missing distance
      to id 1 counts as 0, and writes 7; the rest of the sweep keeps it. */
  lemma DisconnectedSweep()
    ensures var g := [[0.0, 5.0, 0.0, 0.0], [5.0, 0.0, 0.0, 0.0], [0.0, 0.0, 0.0, 7.0], [0.0, 0.0, 7.0, 0.0]];
      Complete(g, 4)[2][0] == 7.0 && Complete(g, 4)[0][2] == 7.0
  {
    var g := [[0.0, 5.0, 0.0, 0.0], [5.0, 0.0, 0.0, 0.0], [0.0, 0.0, 0.0, 7.0], [0.0, 0.0, 7.0, 0.0]];
    assert Symmetric(g, 4);
    assert SweepRows(g, 4, 0, 2) == g;
    assert BestVia(g, 4, 2, 0, 4) == Some(7.0);
    var h := SweepRows(g, 4, 0, 3);
    assert h[2][0] == 7.0;
    SweepRowsShape(g, 4, 0, 3);
    var c1 := SweepCols(g, 4, 1);
    assert c1 == Step(h, 4, 0, 3);
    StepShape(h, 4, 0, 3);
    var c2 := SweepCols(g, 4, 2);
    SweepRowsShape(c1, 4, 1, 4);
    var c3 := SweepCols(g, 4, 3);
    SweepRowsShape(c2, 4, 2, 4);
    SweepRowsShape(c3, 4, 3, 4);
    assert c1[2][0] == 7.0 && c2[2][0] == 7.0 && c3[2][0] == 7.0;
  }

  /** Ids 1 and 3 have no path between them, yet the single sweep gives them
      distance 7: the search only asks d(idx, k) != 0, so a missing second leg
      counts as 0. */
  lemma DisconnectedPointsGetDistance()
    ensures var edges := [Edge(1, 2, 5.0), Edge(3, 4, 7.0)];
      PointIds(edges) == [1, 2, 3, 4] &&
      Complete(DirectGrid(edges, [1, 2, 3, 4]), 4)[2][0] == 7.0 &&
      Complete(DirectGrid(edges, [1, 2, 3, 4]), 4)[0][2] == 7.0
  {
    DisconnectedIds();
    DisconnectedDirect();
    DisconnectedSweep();
  }
}
