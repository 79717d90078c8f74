/** The static graph of the rail network: track segments, the connections
    between them, platforms and stations. Traversal never consults any of it;
    it is kept as data, with the connection-arity rule as a predicate. */
module Network {

  /** A piece of track, identified by its name. */
  datatype TrackSegment = TrackSegment(Name: string)

  /** A junction linking incoming segments to outgoing segments, by name. */
  datatype TrackSegmentConnection = TrackSegmentConnection(In: seq<string>, Out: seq<string>)

  /** The graph: segments keyed by name, and the connections as its edges. */
  datatype RailNetworkMap = RailNetworkMap(
    Segments: map<string, TrackSegment>,
    Connections: seq<TrackSegmentConnection>)

  /** A boarding point bound to one segment. */
  datatype Platform = Platform(Name: string, SegmentName: string)

  datatype Station = Station(Name: string, Platforms: seq<Platform>)

  /** The arity constraints documented on TrackSegmentConnection. Nothing in
      the package checks them; they are a promise of whoever builds the map. */
  predicate ValidConnection(c: TrackSegmentConnection) {
    && 1 <= |c.In| <= 2
    && 1 <= |c.Out| <= 2
    && 2 <= |c.In| + |c.Out| <= 3
  }

  /** The rule admits exactly the three junction kinds: a plain joint, a merge
      and a split. */
  lemma ValidConnectionKinds(c: TrackSegmentConnection)
    ensures ValidConnection(c) <==>
      (|c.In| == 1 && |c.Out| == 1) ||
      (|c.In| == 2 && |c.Out| == 1) ||
      (|c.In| == 1 && |c.Out| == 2)
  {
  }

  /** A one-to-one joint between two segments. */
  function OneToOne(from: string, to: string): (c: TrackSegmentConnection)
    ensures ValidConnection(c)
    ensures c.In == [from] && c.Out == [to]
  {
    TrackSegmentConnection([from], [to])
  }

  /** Two segments merging into one. */
  function TwoToOne(from1: string, from2: string, to: string): (c: TrackSegmentConnection)
    ensures ValidConnection(c)
    ensures c.In == [from1, from2] && c.Out == [to]
  {
    TrackSegmentConnection([from1, from2], [to])
  }

  /** One segment splitting into two. */
  function OneToTwo(from: string, to1: string, to2: string): (c: TrackSegmentConnection)
    ensures ValidConnection(c)
    ensures c.In == [from] && c.Out == [to1, to2]
  {
    TrackSegmentConnection([from], [to1, to2])
  }
}
