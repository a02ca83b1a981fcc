/**
 * The containers the templated engines accept. A vector or a list of
 * TimedPose is a `Sequence`; a std::map from time to TimedPose is an
 * `OrderedMap`, listed in key order. A position in either plays the part
 * of an iterator.
 */
module Containers {
  import opened Geometry
  import opened Timeline

  datatype Container =
    | Sequence(items: seq<TimedPose>)
    | OrderedMap(entries: seq<(real, TimedPose)>)

  function Size(c: Container): nat {
    match c
    case Sequence(items) => |items|
    case OrderedMap(entries) => |entries|
  }

  /** getTimestamp: the element's time_stamp, or the map key. */
  function TimestampAt(c: Container, i: nat): (t: real)
    requires i < Size(c)
    ensures c.Sequence? ==> t == TimedPoseAt(c, i).timestamp
    ensures c.OrderedMap? ==> c.entries[i] == (t, TimedPoseAt(c, i))
  {
    match c
    case Sequence(items) => items[i].timestamp
    case OrderedMap(entries) => entries[i].0
  }

  /** getTimedPose: the element itself, or the mapped value (`->second`). */
  function TimedPoseAt(c: Container, i: nat): (p: TimedPose)
    requires i < Size(c)
    ensures c.Sequence? ==> p == c.items[i]
    ensures c.OrderedMap? ==> p == c.entries[i].1
  {
    match c
    case Sequence(items) => items[i]
    case OrderedMap(entries) => entries[i].1
  }

  /** The timestamps the engines search, in iteration order. */
  function ContainerTimes(c: Container): (ts: seq<real>)
    ensures |ts| == Size(c)
    ensures forall i :: 0 <= i < Size(c) ==> ts[i] == TimestampAt(c, i)
  {
    seq(Size(c), i requires 0 <= i < Size(c) => TimestampAt(c, i))
  }

  /** A std::map's keys are strictly increasing in iteration order. */
  predicate WellFormed(c: Container) {
    c.OrderedMap? ==> StrictlyIncreasing(ContainerTimes(c))
  }

  /** Every element's search timestamp is its own TimedPose's time_stamp. */
  predicate KeysMatch(c: Container) {
    forall i :: 0 <= i < Size(c) ==> TimestampAt(c, i) == TimedPoseAt(c, i).timestamp
  }

  /**
   * The map `poses_map[p.time_stamp] = p` builds from samples whose
   * timestamps strictly increase: each sample keyed by its own time_stamp.
   */
  function KeyedBy(samples: seq<TimedPose>): (entries: seq<(real, TimedPose)>)
    ensures |entries| == |samples|
    ensures forall i :: 0 <= i < |samples| ==> entries[i] == (samples[i].timestamp, samples[i])
  {
    seq(|samples|, i requires 0 <= i < |samples| => (samples[i].timestamp, samples[i]))
  }

  /**
   * Element dispatch: a vector or list always searches by the element's own
   * time_stamp, a map by its key; the two coincide for a map keyed by each
   * sample's time_stamp, which is a well-formed map exactly when those
   * timestamps strictly increase.
   */
  lemma DispatchAgrees(samples: seq<TimedPose>)
    ensures KeysMatch(Sequence(samples))
    ensures KeysMatch(OrderedMap(KeyedBy(samples)))
    ensures ContainerTimes(Sequence(samples)) == Times(samples)
    ensures ContainerTimes(OrderedMap(KeyedBy(samples))) == Times(samples)
    ensures forall i :: 0 <= i < |samples| ==>
      TimedPoseAt(OrderedMap(KeyedBy(samples)), i) == TimedPoseAt(Sequence(samples), i)
    ensures WellFormed(OrderedMap(KeyedBy(samples))) <==> StrictlyIncreasing(Times(samples))
  {
    assert ContainerTimes(OrderedMap(KeyedBy(samples))) == Times(samples);
  }
}
