/** The calls an allocator receives, and what a run's last relevant calls were. */
module AllocatorCalls {

  datatype Call =
    | SetTargets(targets: map<string, string>, named: map<string, string>) // hash -> job, hash -> collector it names
    | SetCollectors(names: set<string>)

  /** The names of the last collector update that named any collector. */
  ghost function LatestNames(calls: seq<Call>): set<string> {
    if calls == [] then {}
    else
      var last := calls[|calls| - 1];
      if last.SetCollectors? && last.names != {} then last.names else LatestNames(calls[..|calls| - 1])
  }

  /** The hashes of the last target update that was made once a collector was known. */
  ghost function LatestTargets(calls: seq<Call>): set<string> {
    if calls == [] then {}
    else
      var before := calls[..|calls| - 1];
      var last := calls[|calls| - 1];
      if last.SetTargets? && LatestNames(before) != {} then last.targets.Keys else LatestTargets(before)
  }
}
