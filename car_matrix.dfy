/** `generate_car_matrix` and `multiply_matrix` over the vehicle table: a
    matrix of car counts with the distinct id_1 values as rows and the
    distinct id_2 values as columns, and a copy of such a matrix rescaled by
    two masked multiplications in a row. */
module CarMatrix {
  import opened Tables
  import opened VehicleRows

  function Id1s(rows: seq<VehicleRow>): (xs: seq<int>)
    ensures |xs| == |rows| && forall i :: 0 <= i < |rows| ==> xs[i] == rows[i].id1
  {
    seq(|rows|, i requires 0 <= i < |rows| => rows[i].id1)
  }

  function Id2s(rows: seq<VehicleRow>): (xs: seq<int>)
    ensures |xs| == |rows| && forall i :: 0 <= i < |rows| ==> xs[i] == rows[i].id2
  {
    seq(|rows|, i requires 0 <= i < |rows| => rows[i].id2)
  }

  predicate Joins(r: VehicleRow, a: int, b: int) {
    r.id1 == a && r.id2 == b
  }

  /** What cell (a, b) holds after the row loop and `fillna(0)`. */
  function LastCar(rows: seq<VehicleRow>, a: int, b: int): real {
    if |rows| == 0 then 0.0
    else if Joins(rows[|rows| - 1], a, b) then rows[|rows| - 1].car
    else LastCar(rows[..|rows| - 1], a, b)
  }

  /** The cell holds the car value of the last row from a to b, and 0 when
      there is no such row. */
  lemma {:induction false} LastCarIsLastRow(rows: seq<VehicleRow>, a: int, b: int)
    ensures forall i ::
              0 <= i < |rows| && Joins(rows[i], a, b) &&
              (forall j :: i < j < |rows| ==> !Joins(rows[j], a, b))
              ==> LastCar(rows, a, b) == rows[i].car
    ensures (forall i :: 0 <= i < |rows| ==> !Joins(rows[i], a, b)) ==> LastCar(rows, a, b) == 0.0
  {
    if |rows| > 0 {
      var p := rows[..|rows| - 1];
      LastCarIsLastRow(p, a, b);
      assert forall i :: 0 <= i < |p| ==> p[i] == rows[i];
    }
  }

  /** The loop over the rows on a matrix of the given labels: cell
      (id_1, id_2) is set to car, and the cells never set are 0. */
  method FillCars(rows: seq<VehicleRow>, rowIds: seq<int>, colIds: seq<int>) returns (m: array2<real>)
    requires Distinct(rowIds) && Distinct(colIds)
    requires forall k :: 0 <= k < |rows| ==> rows[k].id1 in rowIds && rows[k].id2 in colIds
    ensures fresh(m)
    ensures m.Length0 == |rowIds| && m.Length1 == |colIds|
    ensures forall i, j :: 0 <= i < |rowIds| && 0 <= j < |colIds| ==>
      m[i, j] == LastCar(rows, rowIds[i], colIds[j])
  {
    m := new real[|rowIds|, |colIds|]((i, j) => 0.0);
    var k := 0;
    while k < |rows|
      invariant 0 <= k <= |rows|
      invariant forall i, j :: 0 <= i < |rowIds| && 0 <= j < |colIds| ==>
        m[i, j] == LastCar(rows[..k], rowIds[i], colIds[j])
    {
      var r := rows[k];
      var s, t := IndexOf(rowIds, r.id1), IndexOf(colIds, r.id2);
      m[s, t] := r.car;
      assert rows[..k + 1][..k] == rows[..k];
      assert forall i, j :: 0 <= i < |rowIds| && 0 <= j < |colIds| ==>
        (Joins(r, rowIds[i], colIds[j]) <==> i == s && j == t);
      k := k + 1;
    }
    assert rows[..|rows|] == rows;
  }

  /** The matrix is built over `unique()` of each id column, so the row and
      column labels come in order of first appearance; every cell holds the car
      value of the last row for its pair, or 0. */
  method GenerateCarMatrix(rows: seq<VehicleRow>) returns (rowIds: seq<int>, colIds: seq<int>, m: array2<real>)
    ensures rowIds == Unique(Id1s(rows)) && colIds == Unique(Id2s(rows))
    ensures fresh(m)
    ensures m.Length0 == |rowIds| && m.Length1 == |colIds|
    ensures forall i, j :: 0 <= i < |rowIds| && 0 <= j < |colIds| ==>
      m[i, j] == LastCar(rows, rowIds[i], colIds[j])
  {
    var xs, ys := Id1s(rows), Id2s(rows);
    rowIds := Unique(xs);
    colIds := Unique(ys);
    assert forall k :: 0 <= k < |rows| ==> xs[k] in xs && ys[k] in ys;
    m := FillCars(rows, rowIds, colIds);
  }

  /** `modified_matrix[modified_matrix > 20] *= 0.75`. */
  function FirstMask(v: real): real {
    if v > 20.0 then v * 0.75 else v
  }

  /** `modified_matrix[modified_matrix <= 20] *= 1.25`, applied to the result
      of the first mask. */
  function SecondMask(v: real): real {
    if v <= 20.0 then v * 1.25 else v
  }

  /** A cell of the result before rounding. */
  function Scaled(v: real): real {
    SecondMask(FirstMask(v))
  }

  /** The second mask sees the cells the first one lowered: values above 20
      up to 80/3 drop to 20 or below and are then raised again. */
  lemma ScaledClosedForm(v: real)
    ensures v <= 20.0 ==> Scaled(v) == 1.25 * v
    ensures 20.0 < v <= 80.0 / 3.0 ==> Scaled(v) == 0.9375 * v
    ensures v > 80.0 / 3.0 ==> Scaled(v) == 0.75 * v
  {
    if 20.0 < v <= 80.0 / 3.0 {
      assert v * 0.75 <= 20.0;
    } else if v > 80.0 / 3.0 {
      assert v * 0.75 > 20.0;
    }
  }

  /** `a[select(a)] *= factor`: each selected cell is multiplied, the
      others are left alone. */
  method MaskedScale(a: array2<real>, select: real -> bool, factor: real)
    modifies a
    ensures forall i, j :: 0 <= i < a.Length0 && 0 <= j < a.Length1 ==>
      a[i, j] == if select(old(a[i, j])) then old(a[i, j]) * factor else old(a[i, j])
  {
    var i := 0;
    while i < a.Length0
      invariant 0 <= i <= a.Length0
      invariant forall p, q :: 0 <= p < a.Length0 && 0 <= q < a.Length1 ==>
        a[p, q] == if p < i && select(old(a[p, q])) then old(a[p, q]) * factor else old(a[p, q])
    {
      var j := 0;
      while j < a.Length1
        invariant 0 <= j <= a.Length1
        invariant forall p, q :: 0 <= p < a.Length0 && 0 <= q < a.Length1 ==>
          a[p, q] == if (p < i || (p == i && q < j)) && select(old(a[p, q])) then old(a[p, q]) * factor else old(a[p, q])
      {
        if select(a[i, j]) {
          a[i, j] := a[i, j] * factor;
        }
        j := j + 1;
      }
      i := i + 1;
    }
  }

  /** The copy, then the two masked multiplications. The input matrix is
      left as it was, and the result has its shape with every cell scaled. */
  method MultiplyMatrix(matrix: array2<real>) returns (modified: array2<real>)
    ensures fresh(modified)
    ensures modified.Length0 == matrix.Length0 && modified.Length1 == matrix.Length1
    ensures forall i, j :: 0 <= i < matrix.Length0 && 0 <= j < matrix.Length1 ==>
      modified[i, j] == Scaled(matrix[i, j])
  {
    modified := new real[matrix.Length0, matrix.Length1]((i, j) reads matrix =>
      if 0 <= i < matrix.Length0 && 0 <= j < matrix.Length1 then matrix[i, j] else 0.0);
    MaskedScale(modified, v => v > 20.0, 0.75);
    MaskedScale(modified, v => v <= 20.0, 1.25);
  }
}
