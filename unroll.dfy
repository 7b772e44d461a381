/** `unroll_distance_matrix`: the distance matrix back as a table of
    (id_start, id_end, distance) records, one per ordered pair of different
    ids, rows outer and columns inner. */
module Unroll {
  import opened Tables

  datatype EdgeRecord = EdgeRecord(idStart: int, idEnd: int, distance: real)

  /** The records the inner loop appends for row s after visiting the first e columns. */
  function RowRecords(ids: seq<int>, g: seq<seq<real>>, s: nat, e: nat): seq<EdgeRecord>
    requires HasShape(g, |ids|, |ids|) && s < |ids| && e <= |ids|
  {
    if e == 0 then []
    else
      RowRecords(ids, g, s, e - 1) +
      (if ids[s] != ids[e - 1] then [EdgeRecord(ids[s], ids[e - 1], g[s][e - 1])] else [])
  }

  /** The records appended for the first s rows. */
  function UnrolledRows(ids: seq<int>, g: seq<seq<real>>, s: nat): seq<EdgeRecord>
    requires HasShape(g, |ids|, |ids|) && s <= |ids|
  {
    if s == 0 then [] else UnrolledRows(ids, g, s - 1) + RowRecords(ids, g, s - 1, |ids|)
  }

  function Unrolled(ids: seq<int>, g: seq<seq<real>>): seq<EdgeRecord>
    requires HasShape(g, |ids|, |ids|)
  {
    UnrolledRows(ids, g, |ids|)
  }

  /** Row s yields one record fewer than there are columns. */
  lemma {:induction false} RowRecordsLength(ids: seq<int>, g: seq<seq<real>>, s: nat, e: nat)
    requires HasShape(g, |ids|, |ids|) && Distinct(ids) && s < |ids| && e <= |ids|
    ensures |RowRecords(ids, g, s, e)| == if s < e then e - 1 else e
  {
    if e > 0 {
      RowRecordsLength(ids, g, s, e - 1);
    }
  }

  /** N distinct ids give exactly N * (N - 1) records. */
  lemma {:induction false} UnrolledLength(ids: seq<int>, g: seq<seq<real>>, s: nat)
    requires HasShape(g, |ids|, |ids|) && Distinct(ids) && s <= |ids|
    ensures |UnrolledRows(ids, g, s)| == s * (|ids| - 1)
  {
    if s > 0 {
      UnrolledLength(ids, g, s - 1);
      RowRecordsLength(ids, g, s - 1, |ids|);
      var w := |ids| - 1;
      assert (s - 1) * w + w == s * w;
    }
  }

  /** Every record of row s copies a cell verbatim and joins two different ids. */
  lemma {:induction false} RowRecordsMembers(ids: seq<int>, g: seq<seq<real>>, s: nat, e: nat)
    requires HasShape(g, |ids|, |ids|) && s < |ids| && e <= |ids|
    ensures forall r :: r in RowRecords(ids, g, s, e) <==>
      exists t :: 0 <= t < e && ids[s] != ids[t] && r == EdgeRecord(ids[s], ids[t], g[s][t])
  {
    if e > 0 {
      RowRecordsMembers(ids, g, s, e - 1);
    }
  }

  /** The records are exactly the cells (s, t) with ids[s] != ids[t], each
      with its value copied verbatim. */
  lemma {:induction false} UnrolledMembers(ids: seq<int>, g: seq<seq<real>>, s: nat)
    requires HasShape(g, |ids|, |ids|) && s <= |ids|
    ensures forall r :: r in UnrolledRows(ids, g, s) <==>
      exists a, t :: 0 <= a < s && 0 <= t < |ids| && ids[a] != ids[t] &&
                     r == EdgeRecord(ids[a], ids[t], g[a][t])
  {
    if s > 0 {
      UnrolledMembers(ids, g, s - 1);
      RowRecordsMembers(ids, g, s - 1, |ids|);
    }
  }

  /** Row-major order over the ids. */
  predicate Before(x: EdgeRecord, y: EdgeRecord) {
    x.idStart < y.idStart || (x.idStart == y.idStart && x.idEnd < y.idEnd)
  }

  predicate InRowMajorOrder(rs: seq<EdgeRecord>) {
    forall i, j :: 0 <= i < j < |rs| ==> Before(rs[i], rs[j])
  }

  lemma {:induction false} RowRecordsOrdered(ids: seq<int>, g: seq<seq<real>>, s: nat, e: nat)
    requires HasShape(g, |ids|, |ids|) && StrictlyAscending(ids) && s < |ids| && e <= |ids|
    ensures InRowMajorOrder(RowRecords(ids, g, s, e))
    ensures forall r :: r in RowRecords(ids, g, s, e) ==> r.idStart == ids[s] && (0 < e ==> r.idEnd <= ids[e - 1])
  {
    if e > 0 {
      RowRecordsOrdered(ids, g, s, e - 1);
      var p := RowRecords(ids, g, s, e - 1);
      assert forall k :: 0 <= k < |p| ==> p[k] in p;
    }
  }

  /** A row's records all come after those of earlier rows. */
  lemma AppendRowOrdered(p: seq<EdgeRecord>, q: seq<EdgeRecord>, x: int)
    requires InRowMajorOrder(p) && InRowMajorOrder(q)
    requires forall r :: r in p ==> r.idStart < x
    requires forall r :: r in q ==> r.idStart == x
    ensures InRowMajorOrder(p + q)
  {
    assert forall k :: 0 <= k < |p| ==> p[k] in p;
    assert forall k :: 0 <= k < |q| ==> q[k] in q;
  }

  lemma {:induction false} UnrolledOrdered(ids: seq<int>, g: seq<seq<real>>, s: nat)
    requires HasShape(g, |ids|, |ids|) && StrictlyAscending(ids) && s <= |ids|
    ensures InRowMajorOrder(UnrolledRows(ids, g, s))
    ensures forall r :: r in UnrolledRows(ids, g, s) ==> 0 < s && r.idStart <= ids[s - 1]
  {
    if s > 0 {
      UnrolledOrdered(ids, g, s - 1);
      RowRecordsOrdered(ids, g, s - 1, |ids|);
      var p := UnrolledRows(ids, g, s - 1);
      var q := RowRecords(ids, g, s - 1, |ids|);
      if s > 1 {
        assert ids[s - 2] < ids[s - 1];
      }
      assert forall r :: r in p ==> r.idStart < ids[s - 1];
      assert forall r :: r in q ==> r.idStart == ids[s - 1];
      AppendRowOrdered(p, q, ids[s - 1]);
      assert UnrolledRows(ids, g, s) == p + q;
    }
  }

  /** The flattened table over a sorted id axis: N * (N - 1) records, in
      increasing (id_start, id_end) order, holding exactly the off-diagonal
      cells with their values. */
  lemma UnrolledTable(ids: seq<int>, g: seq<seq<real>>)
    requires HasShape(g, |ids|, |ids|) && StrictlyAscending(ids)
    ensures |Unrolled(ids, g)| == |ids| * (|ids| - 1)
    ensures InRowMajorOrder(Unrolled(ids, g))
    ensures forall r :: r in Unrolled(ids, g) <==>
      exists a, t :: 0 <= a < |ids| && 0 <= t < |ids| && a != t &&
                     r == EdgeRecord(ids[a], ids[t], g[a][t])
  {
    AscendingIsDistinct(ids);
    UnrolledLength(ids, g, |ids|);
    UnrolledOrdered(ids, g, |ids|);
    UnrolledMembers(ids, g, |ids|);
  }

  /** The nested loop of `unroll_distance_matrix`, appending one record per
      pair of different labels. */
  method UnrollDistanceMatrix(ids: seq<int>, m: array2<real>) returns (rows: seq<EdgeRecord>)
    requires m.Length0 == |ids| && m.Length1 == |ids|
    ensures rows == Unrolled(ids, Grid(m))
    ensures StrictlyAscending(ids) ==> |rows| == |ids| * (|ids| - 1) && InRowMajorOrder(rows)
  {
    ghost var g := Grid(m);
    var n := |ids|;
    rows := [];
    var s := 0;
    while s < n
      invariant 0 <= s <= n
      invariant rows == UnrolledRows(ids, g, s)
    {
      var e := 0;
      while e < n
        invariant 0 <= e <= n
        invariant rows == UnrolledRows(ids, g, s) + RowRecords(ids, g, s, e)
      {
        if ids[s] != ids[e] {
          rows := rows + [EdgeRecord(ids[s], ids[e], m[s, e])];
        }
        e := e + 1;
      }
      s := s + 1;
    }
    if StrictlyAscending(ids) {
      UnrolledTable(ids, g);
    }
  }
}
