/** `calculate_toll_rate`: one new column per vehicle type on the unrolled
    table, each holding the record's distance times the type's fixed rate
    coefficient. The table is changed in place and its records stay as they are. */
module TollRates {
  import opened Unroll

  datatype Vehicle = Moto | Car | Rv | Bus | Truck

  /** The keys of the coefficient dictionary, in its insertion order. */
  const VehicleTypes: seq<Vehicle> := [Moto, Car, Rv, Bus, Truck]

  function RateCoefficient(v: Vehicle): real {
    match v
    case Moto => 0.8
    case Car => 1.2
    case Rv => 1.5
    case Bus => 2.2
    case Truck => 3.6
  }

  /** `df['distance'] * rate_coefficient` for the type v, row by row. */
  function TollColumn(records: seq<EdgeRecord>, v: Vehicle): seq<real> {
    seq(|records|, i requires 0 <= i < |records| => records[i].distance * RateCoefficient(v))
  }

  /** Every vehicle type is listed once. */
  lemma VehicleTypesComplete()
    ensures forall v: Vehicle :: v in VehicleTypes
    ensures forall i, j :: 0 <= i < j < |VehicleTypes| ==> VehicleTypes[i] != VehicleTypes[j]
  {
    forall v: Vehicle ensures v in VehicleTypes {
      match v
      case Moto => assert VehicleTypes[0] == v;
      case Car => assert VehicleTypes[1] == v;
      case Rv => assert VehicleTypes[2] == v;
      case Bus => assert VehicleTypes[3] == v;
      case Truck => assert VehicleTypes[4] == v;
    }
  }

  /** A record of distance 10 pays 8, 12, 15, 22 and 36. */
  lemma TenUnitsExample()
    ensures var rs := [EdgeRecord(1001400, 1001402, 10.0)];
      TollColumn(rs, Moto) == [8.0] && TollColumn(rs, Car) == [12.0] &&
      TollColumn(rs, Rv) == [15.0] && TollColumn(rs, Bus) == [22.0] &&
      TollColumn(rs, Truck) == [36.0]
  {
  }

  /** The unrolled table with the toll columns it gains. */
  class TollTable {
    var records: seq<EdgeRecord>
    var tolls: map<Vehicle, seq<real>>

    constructor (records: seq<EdgeRecord>)
      ensures this.records == records && tolls == map[]
    {
      this.records := records;
      tolls := map[];
    }

    /** The loop over the coefficient dictionary: every vehicle column
        present afterwards, each equal to distance times its coefficient, and
        the records untouched. */
    method CalculateTollRate()
      modifies this
      ensures records == old(records)
      ensures forall v: Vehicle :: v in tolls && tolls[v] == TollColumn(records, v)
    {
      var k := 0;
      while k < |VehicleTypes|
        invariant 0 <= k <= |VehicleTypes|
        invariant records == old(records)
        invariant forall v :: v in VehicleTypes[..k] ==> v in tolls && tolls[v] == TollColumn(records, v)
      {
        var v := VehicleTypes[k];
        assert VehicleTypes[..k + 1] == VehicleTypes[..k] + [v];
        tolls := tolls[v := TollColumn(records, v)];
        k := k + 1;
      }
      assert VehicleTypes[..k] == VehicleTypes;
      VehicleTypesComplete();
    }
  }
}
