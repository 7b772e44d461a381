/** The vehicle table of `python_task_1.py`, shared by its matrix and its
    statistics operations. */
module VehicleRows {

  /** One row of the vehicle table: the two ids, the route, and the car,
      bus and truck counts read by the operations. */
  datatype VehicleRow = VehicleRow(id1: int, id2: int, route: int, car: real, bus: real, truck: real)
}
