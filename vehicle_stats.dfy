/** `get_type_count`, `get_bus_indexes` and `filter_routes` over the vehicle
    table: car values put into three half-open buckets and counted, the row
    positions with an outsized bus value, and the routes with a high mean
    truck value. */
module VehicleStats {
  import opened Tables
  import opened VehicleRows

  datatype CarType = Low | Medium | High

  /** `pd.cut` with bins (-inf, 15, 25, inf) and `right=False`. */
  function CarTypeOf(car: real): CarType {
    if car < 15.0 then Low else if car < 25.0 then Medium else High
  }

  /** The `conditions` list the function builds and never uses. */
  function ConditionsTypeOf(car: real): CarType {
    if car <= 15.0 then Low else if car <= 25.0 then Medium else High
  }

  /** Each bucket includes its lower edge and excludes its upper one. */
  lemma BucketsAreHalfOpen(car: real)
    ensures CarTypeOf(car) == Low <==> car < 15.0
    ensures CarTypeOf(car) == Medium <==> 15.0 <= car < 25.0
    ensures CarTypeOf(car) == High <==> 25.0 <= car
  {
  }

  /** The unused conditions put a value in the same bucket except exactly at
      15 and 25, where they choose the lower bucket. */
  lemma ConditionsDisagreeOnlyAtEdges(car: real)
    ensures CarTypeOf(car) != ConditionsTypeOf(car) <==> car == 15.0 || car == 25.0
    ensures ConditionsTypeOf(15.0) == Low && CarTypeOf(15.0) == Medium
    ensures ConditionsTypeOf(25.0) == Medium && CarTypeOf(25.0) == High
  {
  }

  function Label(t: CarType): string {
    match t
    case Low => "low"
    case Medium => "medium"
    case High => "high"
  }

  function Count(types: seq<CarType>, t: CarType): nat {
    if |types| == 0 then 0
    else Count(types[..|types| - 1], t) + (if types[|types| - 1] == t then 1 else 0)
  }

  /** The number of rows in bucket t, counted over the rows' car values. */
  function CountIn(cars: seq<real>, t: CarType): nat {
    |set i | 0 <= i < |cars| && CarTypeOf(cars[i]) == t|
  }

  /** `value_counts().to_dict()` on the categorical column, which lists every
      category even when its count is 0, then sorted by key. */
  function TypeCounts(types: seq<CarType>): seq<(string, nat)> {
    [(Label(High), Count(types, High)), (Label(Low), Count(types, Low)), (Label(Medium), Count(types, Medium))]
  }

  /** Every row falls in exactly one bucket, so the counts add up to the
      number of rows. */
  lemma {:induction false} CountsPartition(types: seq<CarType>)
    ensures Count(types, Low) + Count(types, Medium) + Count(types, High) == |types|
  {
    if |types| > 0 {
      CountsPartition(types[..|types| - 1]);
    }
  }

  /** Counting the column of buckets gives the number of rows whose car
      value falls in each bucket. */
  lemma {:induction false} CountMatchesRows(cars: seq<real>, t: CarType)
    ensures Count(seq(|cars|, i requires 0 <= i < |cars| => CarTypeOf(cars[i])), t) == CountIn(cars, t)
  {
    var types := seq(|cars|, i requires 0 <= i < |cars| => CarTypeOf(cars[i]));
    if |cars| > 0 {
      var p := cars[..|cars| - 1];
      CountMatchesRows(p, t);
      var pt := seq(|p|, i requires 0 <= i < |p| => CarTypeOf(p[i]));
      assert types[..|types| - 1] == pt;
      var sp := set i | 0 <= i < |p| && CarTypeOf(p[i]) == t;
      var sc := set i | 0 <= i < |cars| && CarTypeOf(cars[i]) == t;
      if CarTypeOf(cars[|cars| - 1]) == t {
        assert sc == sp + {|cars| - 1};
      } else {
        assert sc == sp;
      }
    }
  }

  /** Strict lexicographic order on strings. */
  predicate LexLess(a: string, b: string) {
    (|a| == 0 && |b| > 0) ||
    (|a| > 0 && |b| > 0 && (a[0] < b[0] || (a[0] == b[0] && LexLess(a[1..], b[1..]))))
  }

  /** The keys come back in alphabetical order, high, low, medium, and the
      counts add up to the number of rows. */
  lemma TypeCountsSortedAndComplete(types: seq<CarType>)
    ensures var c := TypeCounts(types);
      |c| == 3 && LexLess(c[0].0, c[1].0) && LexLess(c[1].0, c[2].0) &&
      c[0].1 + c[1].1 + c[2].1 == |types|
  {
    CountsPartition(types);
  }

  /** The table with the `car_type` column the function writes into it. */
  class VehicleTable {
    var rows: seq<VehicleRow>
    var carType: seq<CarType>

    constructor (rows: seq<VehicleRow>)
      ensures this.rows == rows && carType == []
    {
      this.rows := rows;
      carType := [];
    }

    /** Writes the bucket of every row's car value into `car_type`, then
        counts the buckets. */
    method GetTypeCount() returns (counts: seq<(string, nat)>)
      modifies this`carType
      ensures |carType| == |rows| && forall i :: 0 <= i < |rows| ==> carType[i] == CarTypeOf(rows[i].car)
      ensures counts == TypeCounts(carType)
    {
      var rs := rows;
      carType := seq(|rs|, i requires 0 <= i < |rs| => CarTypeOf(rs[i].car));
      counts := TypeCounts(carType);
    }
  }

  function Buses(rows: seq<VehicleRow>): (bs: seq<real>)
    ensures |bs| == |rows| && forall i :: 0 <= i < |rows| ==> bs[i] == rows[i].bus
  {
    seq(|rows|, i requires 0 <= i < |rows| => rows[i].bus)
  }

  /** The positions below n whose value exceeds the threshold, ascending. */
  function PositionsAbove(xs: seq<real>, threshold: real, n: nat): (ps: seq<int>)
    requires n <= |xs|
    ensures StrictlyAscending(ps)
    ensures forall p :: p in ps <==> 0 <= p < n && xs[p] > threshold
    ensures forall p :: p in ps ==> p < n
  {
    if n == 0 then []
    else
      var ps := PositionsAbove(xs, threshold, n - 1);
      assert forall k :: 0 <= k < |ps| ==> ps[k] in ps;
      if xs[n - 1] > threshold then ps + [n - 1] else ps
  }

  /** The row positions, which are the table's default index, whose bus value
      is strictly greater than twice the mean; an empty table has a NaN mean
      and gives no position. */
  function BusIndexes(rows: seq<VehicleRow>): (ps: seq<int>)
    ensures StrictlyAscending(ps)
    ensures |rows| == 0 ==> ps == []
    ensures |rows| > 0 ==> forall p :: p in ps <==>
      0 <= p < |rows| && rows[p].bus > 2.0 * Mean(Buses(rows))
  {
    if |rows| == 0 then [] else PositionsAbove(Buses(rows), 2.0 * Mean(Buses(rows)), |rows|)
  }

  /** Bus values 0 and 2 have mean 1; the second row equals twice the mean
      exactly and is not picked, since the comparison is strict. */
  lemma BusIndexesStrict()
    ensures var rows := [VehicleRow(1, 2, 1, 0.0, 0.0, 0.0), VehicleRow(1, 3, 1, 0.0, 2.0, 0.0)];
      2.0 * Mean(Buses(rows)) == rows[1].bus && BusIndexes(rows) == []
  {
    var rows := [VehicleRow(1, 2, 1, 0.0, 0.0, 0.0), VehicleRow(1, 3, 1, 0.0, 2.0, 0.0)];
    assert Buses(rows) == [0.0, 2.0];
    assert [0.0, 2.0][..1] == [0.0];
    assert [0.0][..0] == [];
  }

  function Routes(rows: seq<VehicleRow>): (rs: seq<int>)
    ensures |rs| == |rows| && forall i :: 0 <= i < |rows| ==> rs[i] == rows[i].route
  {
    seq(|rows|, i requires 0 <= i < |rows| => rows[i].route)
  }

  /** The truck values of the route's rows: the group `groupby('route')` forms. */
  function RouteTrucks(rows: seq<VehicleRow>, route: int): (ts: seq<real>)
    ensures |ts| == 0 <==> forall i :: 0 <= i < |rows| ==> rows[i].route != route
  {
    if |rows| == 0 then []
    else
      var p, r := rows[..|rows| - 1], rows[|rows| - 1];
      assert forall i :: 0 <= i < |p| ==> p[i] == rows[i];
      RouteTrucks(p, route) + (if r.route == route then [r.truck] else [])
  }

  /** Keeps the routes of xs whose mean truck value exceeds 7, in order. */
  function RoutesAbove(rows: seq<VehicleRow>, xs: seq<int>): (ys: seq<int>)
    requires StrictlyAscending(xs)
    requires forall x :: x in xs ==> |RouteTrucks(rows, x)| > 0
    ensures StrictlyAscending(ys)
    ensures forall y :: y in ys <==> y in xs && Mean(RouteTrucks(rows, y)) > 7.0
  {
    if |xs| == 0 then []
    else
      var p, x := xs[..|xs| - 1], xs[|xs| - 1];
      assert forall k :: 0 <= k < |p| ==> p[k] == xs[k];
      var ys := RoutesAbove(rows, p);
      if Mean(RouteTrucks(rows, x)) > 7.0 then
        assert forall k :: 0 <= k < |ys| ==> ys[k] in p;
        ys + [x]
      else ys
  }

  /** The routes whose mean truck value is strictly greater than 7, sorted,
      each once. */
  function FilterRoutes(rows: seq<VehicleRow>): (rs: seq<int>)
    ensures StrictlyAscending(rs)
    ensures forall x :: x in rs <==>
      (exists i :: 0 <= i < |rows| && rows[i].route == x) && Mean(RouteTrucks(rows, x)) > 7.0
  {
    var xs := SortedDistinct(Routes(rows));
    assert forall x :: x in xs ==> exists i :: 0 <= i < |rows| && rows[i].route == x by {
      forall x | x in xs ensures exists i :: 0 <= i < |rows| && rows[i].route == x {
        var i :| 0 <= i < |Routes(rows)| && Routes(rows)[i] == x;
      }
    }
    RoutesAbove(rows, xs)
  }
}
