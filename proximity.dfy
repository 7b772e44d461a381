/** `find_ids_within_ten_percentage_threshold`: the mean distance of the
    reference id's records gives a band of plus or minus ten percent; the
    result is every id_start of a RECORD whose own distance lies in the band,
    sorted and without repeats. Each id's own mean distance plays no part,
    although the function's name suggests that it should. */
module Proximity {
  import opened Tables
  import opened Unroll

  /** The distances of the records whose id_start is ref. */
  function DistancesFrom(rows: seq<EdgeRecord>, ref: int): (ds: seq<real>)
    ensures |ds| == 0 <==> forall i :: 0 <= i < |rows| ==> rows[i].idStart != ref
  {
    if |rows| == 0 then []
    else
      var p, r := rows[..|rows| - 1], rows[|rows| - 1];
      assert forall i :: 0 <= i < |p| ==> p[i] == rows[i];
      DistancesFrom(p, ref) + (if r.idStart == ref then [r.distance] else [])
  }

  /** `lower_threshold <= d <= upper_threshold` for the mean avg. */
  predicate InBand(d: real, avg: real) {
    avg - 0.1 * avg <= d && d <= avg + 0.1 * avg
  }

  /** The id_start of every record whose distance lies in the band, in table order. */
  function StartsInBand(rows: seq<EdgeRecord>, avg: real): (xs: seq<int>)
    ensures forall x :: x in xs <==>
      exists i :: 0 <= i < |rows| && rows[i].idStart == x && InBand(rows[i].distance, avg)
  {
    if |rows| == 0 then []
    else
      var p, r := rows[..|rows| - 1], rows[|rows| - 1];
      assert forall i :: 0 <= i < |p| ==> p[i] == rows[i];
      StartsInBand(p, avg) + (if InBand(r.distance, avg) then [r.idStart] else [])
  }

  /** Without a record for ref the mean is NaN, every comparison with it is
      false, and the result is empty. */
  function IdsWithinTenPercent(rows: seq<EdgeRecord>, ref: int): (ids: seq<int>)
    ensures StrictlyAscending(ids)
    ensures (forall i :: 0 <= i < |rows| ==> rows[i].idStart != ref) ==> ids == []
    ensures |DistancesFrom(rows, ref)| > 0 ==> forall x :: x in ids <==>
      exists i :: 0 <= i < |rows| && rows[i].idStart == x &&
                  InBand(rows[i].distance, Mean(DistancesFrom(rows, ref)))
  {
    var ds := DistancesFrom(rows, ref);
    if |ds| == 0 then [] else SortedDistinct(StartsInBand(rows, Mean(ds)))
  }

  function ExampleRows(): seq<EdgeRecord> {
    [EdgeRecord(1, 2, 10.0), EdgeRecord(2, 1, 10.0), EdgeRecord(2, 3, 100.0)]
  }

  lemma ExampleReferenceMean()
    ensures DistancesFrom(ExampleRows(), 1) == [10.0] && Mean([10.0]) == 10.0
  {
    var rows := ExampleRows();
    assert rows[..2] == [EdgeRecord(1, 2, 10.0), EdgeRecord(2, 1, 10.0)];
    assert rows[..2][..1] == [EdgeRecord(1, 2, 10.0)];
    assert rows[..2][..1][..0] == [];
    assert [10.0][..0] == [];
  }

  lemma ExampleStarts()
    ensures StartsInBand(ExampleRows(), 10.0) == [1, 2]
  {
    var rows := ExampleRows();
    assert rows[..2] == [EdgeRecord(1, 2, 10.0), EdgeRecord(2, 1, 10.0)];
    assert rows[..2][..1] == [EdgeRecord(1, 2, 10.0)];
    assert rows[..2][..1][..0] == [];
    assert !InBand(100.0, 10.0) && InBand(10.0, 10.0);
    assert StartsInBand(rows[..2][..1], 10.0) == [1];
    assert StartsInBand(rows[..2], 10.0) == [1, 2];
  }

  lemma ExampleOwnMean()
    ensures Mean(DistancesFrom(ExampleRows(), 2)) == 55.0
  {
    var rows := ExampleRows();
    assert rows[..2] == [EdgeRecord(1, 2, 10.0), EdgeRecord(2, 1, 10.0)];
    assert rows[..2][..1] == [EdgeRecord(1, 2, 10.0)];
    assert rows[..2][..1][..0] == [];
    assert DistancesFrom(rows, 2) == [10.0, 100.0];
    assert [10.0, 100.0][..1] == [10.0];
    assert [10.0, 100.0][..1][..0] == [];
  }

  /** Records (1, 2, 10), (2, 1, 10), (2, 3, 100) and reference 1: the band is
      [9, 11] around the mean 10, and id 2 is kept for its record of 10 although
      its own mean, 55, lies far outside the band. */
  lemma RecordsNotMeansAreFiltered()
    ensures IdsWithinTenPercent(ExampleRows(), 1) == [1, 2]
    ensures Mean(DistancesFrom(ExampleRows(), 2)) == 55.0
  {
    ExampleReferenceMean();
    ExampleStarts();
    ExampleOwnMean();
    assert [1, 2][..1] == [1];
    assert [1][..0] == [];
    assert SortedDistinct([1]) == [1];
  }
}
