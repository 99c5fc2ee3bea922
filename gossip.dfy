/** The gossip protocol as functions of its inputs: the single-record
    handlers (`HandleMessage`, `GossipNodeData`), the single-message stream
    reader (`handleStreamData`) and the rule by which registry change
    notifications are published and trigger full syncs
    (`ListenToNodeTracker`). */
module Gossip {
  import opened Wrappers
  import opened Types

  /** The merge calls a gossip handler makes for one payload: none when it
      does not decode, the decoded record alone otherwise. */
  function GossipMerges(payload: Bytes, decode: Bytes -> Option<NodeData>): (merged: seq<NodeData>)
    ensures |merged| <= 1
    ensures merged == [] <==> decode(payload).None?
    ensures decode(payload).Some? ==> merged == [decode(payload).value]
  {
    match decode(payload)
    case None => []
    case Some(d) => [d]
  }

  // -------------------------------------------------------------------
  // handleStreamData

  datatype ReadError = NoError | EOF | ReadFailed

  /** One `stream.Read` into the 1024-byte buffer: the `n` bytes read and
      the error returned with them. */
  datatype ReadResult = ReadResult(chunk: Bytes, err: ReadError)

  /** Some read reports an error: only then does the accumulating loop
      return. */
  predicate Ends(results: seq<ReadResult>)
  {
    |results| > 0 && (results[0].err != NoError || Ends(results[1..]))
  }

  /** What the stream reader returns: the accumulated bytes when the stream
      ends cleanly, None (Go's nil) on any other error. */
  function StreamPayload(results: seq<ReadResult>): Option<Bytes>
    requires Ends(results)
  {
    match results[0].err
    case EOF => Some(results[0].chunk)
    case ReadFailed => None
    case NoError => Prefixed(results[0].chunk, StreamPayload(results[1..]))
  }

  /** `prefix` put in front of a payload; nil stays nil. */
  function Prefixed(prefix: Bytes, data: Option<Bytes>): Option<Bytes>
  {
    match data
    case None => None
    case Some(b) => Some(prefix + b)
  }

  lemma PrefixedTwice(a: Bytes, b: Bytes, data: Option<Bytes>)
    ensures Prefixed(a, Prefixed(b, data)) == Prefixed(a + b, data)
  {
    if data.Some? {
      assert a + (b + data.value) == (a + b) + data.value;
    }
  }

  /** The chunks of `results`, concatenated. */
  function Chunks(results: seq<ReadResult>): Bytes
  {
    if results == [] then [] else Chunks(results[..|results| - 1]) + results[|results| - 1].chunk
  }

  /** The index of the read that ends the loop. */
  function EndIndex(results: seq<ReadResult>): (e: nat)
    requires Ends(results)
    ensures e < |results| && results[e].err != NoError
    ensures forall j :: 0 <= j < e ==> results[j].err == NoError
  {
    if results[0].err != NoError then 0 else 1 + EndIndex(results[1..])
  }

  lemma {:induction false} ChunksCons(r: ReadResult, rest: seq<ReadResult>)
    ensures Chunks([r] + rest) == r.chunk + Chunks(rest)
    decreases |rest|
  {
    if rest != [] {
      var all := [r] + rest;
      assert all[..|all| - 1] == [r] + rest[..|rest| - 1];
      ChunksCons(r, rest[..|rest| - 1]);
    } else {
      assert [r][..0] == [];
    }
  }

  /** The reader's result stated against the read that ends it: on a clean
      end of stream, every chunk up to and including that read's (bytes
      read together with EOF are kept); on any other error, nothing, even
      if bytes were read before. */
  lemma {:induction false} StreamPayloadSpec(results: seq<ReadResult>)
    requires Ends(results)
    ensures var e := EndIndex(results);
      StreamPayload(results) == if results[e].err == EOF then Some(Chunks(results[..e + 1])) else None
  {
    var e := EndIndex(results);
    if results[0].err == NoError {
      StreamPayloadSpec(results[1..]);
      assert results[..e + 1] == [results[0]] + results[1..][..e];
      ChunksCons(results[0], results[1..][..e]);
    } else {
      assert results[..1] == [results[0]];
      assert [results[0]][..0] == [];
      assert Chunks(results[..1]) == results[0].chunk;
    }
  }

  /** The bytes a stream-based gossip handler decodes: the reader's
      payload, with nil decoded like an empty message. */
  function MessageOf(data: Option<Bytes>): Bytes
  {
    match data
    case None => []
    case Some(b) => b
  }

  /** The stream-based gossip path merges nothing unless the stream ended
      cleanly with a payload that decodes. */
  lemma StreamGossipNeedsCleanEnd(results: seq<ReadResult>, decode: Bytes -> Option<NodeData>)
    requires Ends(results)
    requires decode([]).None?
    ensures GossipMerges(MessageOf(StreamPayload(results)), decode) != [] ==>
      results[EndIndex(results)].err == EOF && decode(Chunks(results[..EndIndex(results) + 1])).Some?
  {
    StreamPayloadSpec(results);
  }

  // -------------------------------------------------------------------
  // ListenToNodeTracker

  /** An external call the dispatch loop makes: a publish on a topic, or
      the start of a full sync to a peer (run concurrently). */
  datatype Effect = Publish(topic: Channel, payload: Bytes) | StartSync(peer: PeerId)

  /** The calls made for one change notification. */
  function DispatchOne(n: NodeData, marshal: NodeData -> Option<Bytes>): seq<Effect>
  {
    match marshal(n)
    case None => []
    case Some(json) =>
      [Publish(NodeGossip, json)] + (if n.activity == Joined then [StartSync(n.peerId)] else [])
  }

  /** The dispatch rule for one notification: a marshal failure skips
      everything; otherwise the record is published once on the gossip
      topic, and a full sync to its peer follows exactly when its activity
      is "Joined" (the publish outcome plays no part). */
  lemma DispatchOneRule(n: NodeData, marshal: NodeData -> Option<Bytes>)
    ensures var es := DispatchOne(n, marshal);
      && (marshal(n).None? ==> es == [])
      && |es| == (if marshal(n).None? then 0 else if n.activity == Joined then 2 else 1)
      && (marshal(n).Some? ==> es[0] == Publish(NodeGossip, marshal(n).value))
      && (|es| == 2 ==> es[1] == StartSync(n.peerId))
      && (forall i :: 1 <= i < |es| ==> es[i].StartSync?)
      && (StartSync(n.peerId) in es <==> marshal(n).Some? && n.activity == Joined)
  {
  }

  /** The calls made for a run of notifications, in order. */
  function DispatchAll(ns: seq<NodeData>, marshal: NodeData -> Option<Bytes>): seq<Effect>
  {
    if ns == [] then [] else DispatchAll(ns[..|ns| - 1], marshal) + DispatchOne(ns[|ns| - 1], marshal)
  }

  lemma DispatchAllSnoc(ns: seq<NodeData>, n: NodeData, marshal: NodeData -> Option<Bytes>)
    ensures DispatchAll(ns + [n], marshal) == DispatchAll(ns, marshal) + DispatchOne(n, marshal)
  {
    assert (ns + [n])[..|ns|] == ns;
  }

  /** The payloads published, in order. */
  function Published(es: seq<Effect>): seq<Bytes>
  {
    if es == [] then []
    else Published(es[..|es| - 1]) + (if es[|es| - 1].Publish? then [es[|es| - 1].payload] else [])
  }

  /** The peers a full sync is started to, in order. */
  function SyncTargets(es: seq<Effect>): seq<PeerId>
  {
    if es == [] then []
    else SyncTargets(es[..|es| - 1]) + (if es[|es| - 1].StartSync? then [es[|es| - 1].peer] else [])
  }

  lemma {:induction false} FiltersAppend(a: seq<Effect>, b: seq<Effect>)
    ensures Published(a + b) == Published(a) + Published(b)
    ensures SyncTargets(a + b) == SyncTargets(a) + SyncTargets(b)
  {
    if b == [] {
      assert a + b == a;
    } else {
      assert (a + b)[..|a + b| - 1] == a + b[..|b| - 1];
      FiltersAppend(a, b[..|b| - 1]);
    }
  }

  /** The marshalled form of `n` as a list: empty when marshalling fails. */
  function Marshalled(n: NodeData, marshal: NodeData -> Option<Bytes>): seq<Bytes>
  {
    match marshal(n)
    case None => []
    case Some(j) => [j]
  }

  /** The marshalled forms of the notifications that marshal. */
  function MarshalledOf(ns: seq<NodeData>, marshal: NodeData -> Option<Bytes>): seq<Bytes>
  {
    if ns == [] then []
    else MarshalledOf(ns[..|ns| - 1], marshal) + Marshalled(ns[|ns| - 1], marshal)
  }

  /** The peers of the "Joined" notifications that marshal. */
  function JoinedPeers(ns: seq<NodeData>, marshal: NodeData -> Option<Bytes>): seq<PeerId>
  {
    if ns == [] then []
    else (
      var n := ns[|ns| - 1];
      JoinedPeers(ns[..|ns| - 1], marshal) + (if marshal(n).Some? && n.activity == Joined then [n.peerId] else []))
  }

  lemma DispatchOneFilters(n: NodeData, marshal: NodeData -> Option<Bytes>)
    ensures Published(DispatchOne(n, marshal)) == Marshalled(n, marshal)
    ensures SyncTargets(DispatchOne(n, marshal)) == (if marshal(n).Some? && n.activity == Joined then [n.peerId] else [])
  {
    match marshal(n)
    case None =>
    case Some(j) =>
      var p := Publish(NodeGossip, j);
      assert Published([p]) == [j] && SyncTargets([p]) == [] by {
        assert [p][..0] == [];
      }
      if n.activity == Joined {
        var es := [p, StartSync(n.peerId)];
        assert es[..1] == [p];
      }
  }

  /** Over a whole run of notifications: every notification that marshals
      is published once, in order, and a full sync is started exactly for
      the "Joined" ones among them; one that does not marshal causes
      neither. */
  lemma {:induction false} DispatchAllFilters(ns: seq<NodeData>, marshal: NodeData -> Option<Bytes>)
    ensures Published(DispatchAll(ns, marshal)) == MarshalledOf(ns, marshal)
    ensures SyncTargets(DispatchAll(ns, marshal)) == JoinedPeers(ns, marshal)
  {
    if ns != [] {
      var init := ns[..|ns| - 1];
      var n := ns[|ns| - 1];
      DispatchAllFilters(init, marshal);
      DispatchOneFilters(n, marshal);
      FiltersAppend(DispatchAll(init, marshal), DispatchOne(n, marshal));
    }
  }

  /** A "Joined" change both publishes its record and starts a full sync to
      its peer; a "Left" change only publishes. */
  lemma JoinedAndLeft(peer: PeerId, state: string, marshal: NodeData -> Option<Bytes>)
    requires marshal(NodeData(peer, Joined, state)).Some? && marshal(NodeData(peer, Left, state)).Some?
    ensures DispatchOne(NodeData(peer, Joined, state), marshal) ==
      [Publish(NodeGossip, marshal(NodeData(peer, Joined, state)).value), StartSync(peer)]
    ensures DispatchOne(NodeData(peer, Left, state), marshal) ==
      [Publish(NodeGossip, marshal(NodeData(peer, Left, state)).value)]
  {
  }

}
