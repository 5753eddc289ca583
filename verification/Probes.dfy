/** What the probe sweeps share: targets, and observations keyed by destination. */
module Probes {
  import opened Net

  /** What one probe observed; its content does not matter to a sweep. */
  type Value(!new)

  datatype Observation = Observation(destination: SocketAddr, value: Value)

  function DestinationRank(o: Observation): int { SocketRank(o.destination) }

  /** `lookups` are the addresses of all successful lookups, in lookup order, repetitions included. */
  datatype Target = Target(lookups: seq<Ip>, port: Port)
}
