/** The settings the placement and the router depend on. */
module Config {
  datatype PoolConfig = PoolConfig(numLayers: nat, stages: nat, replicas: nat, useSpareCapacity: bool)
  {
    predicate Valid() { 1 <= stages <= numLayers && replicas >= 1 }
  }
}
