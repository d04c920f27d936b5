/**
 * The vehicle record of an instance file: the five values of its second
 * block, in file order, as both solvers unpack them
 * (`Q, C, h, g, v = vehicle`).
 */
module Vehicles {
  import opened Results

  /** Battery capacity `Q`, load capacity `C`, consumption rate `h`,
      recharge rate `g` and average speed `v`. */
  datatype Vehicle = Vehicle(Q: real, C: real, h: real, g: real, v: real)

  /** The values a vehicle is unpacked from, in unpacking order. */
  function Fields(veh: Vehicle): seq<real>
  {
    [veh.Q, veh.C, veh.h, veh.g, veh.v]
  }

  /** `Q, C, h, g, v = vehicle`: Python's tuple unpacking, which raises
      unless the list has exactly five entries. */
  function Unpack(values: seq<real>): (r: Option<Vehicle>)
    ensures r.Some? <==> |values| == 5
    ensures r.Some? ==> Fields(r.value) == values
  {
    if |values| == 5 then Some(Vehicle(values[0], values[1], values[2], values[3], values[4])) else None
  }

  /** Unpacking the values of a vehicle gives that vehicle back. */
  lemma UnpackFields(veh: Vehicle)
    ensures Unpack(Fields(veh)) == Some(veh)
  {
  }
}
