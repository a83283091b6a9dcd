/** Real numbers and points in space. */
module Reals {
  function Min(x: real, y: real): real { if x <= y then x else y }
  function Max(x: real, y: real): real { if x >= y then x else y }
  function Abs(x: real): real { if x < 0.0 then -x else x }

  datatype Vec = Vec(x: real, y: real, z: real)
}
