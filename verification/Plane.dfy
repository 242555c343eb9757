/** The floor plane a player walks on. */
module Plane {
  datatype Point = Point(x: real, z: real)

  /** The longest step a frame can take: 11.25 metres a second for at most a twentieth. */
  const STRIDE := 11.25 * 0.05

  function Abs(v: real): real { if v < 0.0 then -v else v }

  /** Counting crossings: each changes the side. */
  lemma NextParity(n: nat, more: bool)
    ensures (n + if more then 1 else 0) % 2 == 1 <==> (n % 2 == 1) != more
  {}
}
