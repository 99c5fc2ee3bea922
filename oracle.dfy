/** The oracle node: its memoised address, its publisher flag and its
    protocol handlers, each a method over the node's state and the
    transport's answers (pkg/oracle_node.go, pkg/oracle_node_listener.go). */
module Oracle {
  import opened Wrappers
  import opened Types
  import opened Pagination
  import opened Framing
  import opened Sync
  import opened Gossip
  import opened Liveness
  import opened Collaborators

  class OracleNode {
    /** The host's own addresses. */
    const multiAddrs: seq<Multiaddr>
    /** The address-selection rule of the network package, which is not
        part of this model; it may yield nil. */
    const priorityOf: seq<Multiaddr> -> Option<Multiaddr>
    /** The memoised priority address; None is nil. */
    var priorityAddrs: Option<Multiaddr>
    /** How many times the address-selection rule has been consulted. */
    ghost var lookups: nat
    var signature: string
    const tracker: NodeEventTracker
    /** The process-wide full-sync page size. */
    const pageSize: Positive

    constructor (multiAddrs: seq<Multiaddr>, priorityOf: seq<Multiaddr> -> Option<Multiaddr>,
                 signature: string, tracker: NodeEventTracker, pageSize: Positive)
      ensures this.multiAddrs == multiAddrs && this.priorityOf == priorityOf
      ensures this.signature == signature && this.tracker == tracker && this.pageSize == pageSize
      ensures priorityAddrs == None && lookups == 0
    {
      this.multiAddrs := multiAddrs;
      this.priorityOf := priorityOf;
      this.signature := signature;
      this.tracker := tracker;
      this.pageSize := pageSize;
      priorityAddrs := None;
      lookups := 0;
    }

    /** The address `GetMultiAddrs` answers in the current state. */
    ghost function ResolvedAddr(): Option<Multiaddr>
      reads this
    {
      if priorityAddrs.Some? then priorityAddrs else priorityOf(multiAddrs)
    }

    /** Lazy memoisation: the selection rule runs only while nothing is
        stored, its answer is stored, and a stored address is returned as
        it is, so every later call answers the same. */
    method GetMultiAddrs() returns (addr: Option<Multiaddr>)
      modifies this`priorityAddrs, this`lookups
      ensures addr == old(ResolvedAddr()) && priorityAddrs == addr
      ensures ResolvedAddr() == old(ResolvedAddr())
      ensures lookups == old(lookups) + (if old(priorityAddrs).None? then 1 else 0)
    {
      if priorityAddrs.None? {
        var pAddr := priorityOf(multiAddrs);
        lookups := lookups + 1;
        priorityAddrs := pAddr;
      }
      addr := priorityAddrs;
    }

    /** A node publishes exactly when it holds a signature. */
    function IsPublisher(): (publisher: bool)
      reads this
      ensures publisher <==> |signature| > 0
    {
      signature != ""
    }

    // -----------------------------------------------------------------
    // Full sync

    /** One page: read the registry, slice page `pageNumber` out of it,
        marshal it and write it as one line; a marshal failure writes
        nothing, a write failure is only logged. */
    method SendNodeDataPage(stream: Stream, pageNumber: nat, marshal: NodeDataPage -> Option<Bytes>, writeFails: bool)
      requires pageNumber * pageSize <= |tracker.records|
      modifies stream`written
      ensures stream.written ==
        old(stream.written) + FrameOf(marshal(MakePage(tracker.records, pageSize, pageNumber)), writeFails)
    {
      var allNodeData := tracker.GetAllNodeData();
      var totalRecords := |allNodeData|;
      var totalPages := TotalPages(totalRecords, pageSize);
      var startIndex := pageNumber * pageSize;
      var endIndex := startIndex + pageSize;
      if endIndex > totalRecords {
        endIndex := totalRecords;
      }
      var page := NodeDataPage(allNodeData[startIndex..endIndex], pageNumber, totalPages, totalRecords);
      assert page == MakePage(allNodeData, pageSize, pageNumber);
      var json := marshal(page);
      if json.None? {
        return;
      }
      var err := stream.Write(Frame(json.value), writeFails);
    }

    /** A full sync to `peer`: size the loop from one registry read, open a
        stream (`openOk` is the transport's answer), send pages
        0 .. totalPages-1 in order and close the stream. */
    method SendNodeData(peer: PeerId, openOk: bool, marshal: NodeDataPage -> Option<Bytes>, writeFails: int -> bool)
      returns (stream: Stream?)
      ensures stream != null <==> openOk
      ensures stream != null ==> fresh(stream) && stream.channel == NodeDataSync && stream.peer == peer
      ensures stream != null ==> stream.closed && stream.written == SentFrames(tracker.records, pageSize, marshal, writeFails)
    {
      var allNodeData := tracker.GetAllNodeData();
      var totalRecords := |allNodeData|;
      var totalPages := TotalPages(totalRecords, pageSize);
      if !openOk {
        return null;
      }
      stream := new Stream.Open(NodeDataSync, peer);
      for pageNumber := 0 to totalPages
        invariant stream.written == FramesOf(PagesUpTo(allNodeData, pageSize, pageNumber), marshal, writeFails)
        invariant !stream.closed
        invariant allNodeData == tracker.records && totalPages == TotalPages(|allNodeData|, pageSize)
      {
        FramesOfNextPage(allNodeData, pageSize, pageNumber, marshal, writeFails);
        SendNodeDataPage(stream, pageNumber, marshal, writeFails(pageNumber));
        assert stream.written == FramesOf(PagesUpTo(allNodeData, pageSize, pageNumber + 1), marshal, writeFails);
      }
      assert stream.written == SentFrames(allNodeData, pageSize, marshal, writeFails);
      stream.Close();
    }

    /** The full-sync receiver: every scanned line is decoded on its own; a
        line that does not decode is skipped, and every record of every
        decoded page is handed to the registry in order. */
    method ReceiveNodeData(lines: seq<Bytes>, decode: Bytes -> Option<NodeDataPage>)
      modifies tracker`merged
      ensures tracker.merged == old(tracker.merged) + Received(lines, decode)
    {
      for i := 0 to |lines|
        invariant tracker.merged == old(tracker.merged) + Received(lines[..i], decode)
      {
        var page := decode(lines[i]);
        if page.Some? {
          var data := page.value.data;
          for j := 0 to |data|
            invariant tracker.merged == old(tracker.merged) + Received(lines[..i], decode) + data[..j]
          {
            tracker.HandleNodeData(data[j]);
            assert data[..j + 1] == data[..j] + [data[j]];
          }
          assert data[..|data|] == data;
        }
        assert lines[..i + 1][..i] == lines[..i];
      }
      assert lines[..|lines|] == lines;
    }

    // -----------------------------------------------------------------
    // Gossip

    /** The topic handler: decode one record from the message; none is
        merged when decoding fails, exactly the decoded one otherwise. */
    method HandleMessage(payload: Bytes, decode: Bytes -> Option<NodeData>)
      modifies tracker`merged
      ensures tracker.merged == old(tracker.merged) + GossipMerges(payload, decode)
    {
      var nodeData := decode(payload);
      if nodeData.None? {
        return;
      }
      tracker.HandleNodeData(nodeData.value);
    }

    /** The single-message stream reader: append every chunk read (the
        bytes that come with an error included), return the whole buffer on
        a clean end of stream and nil on any other error, and close the
        stream on the way out. */
    method HandleStreamData(stream: Stream, results: seq<ReadResult>) returns (data: Option<Bytes>)
      requires Ends(results)
      modifies stream`closed
      ensures data == StreamPayload(results)
      ensures stream.closed
    {
      var buffer: Bytes := [];
      var i := 0;
      assert results[i..] == results;
      assert Prefixed(buffer, StreamPayload(results)) == StreamPayload(results) by {
        if StreamPayload(results).Some? {
          assert buffer + StreamPayload(results).value == StreamPayload(results).value;
        }
      }
      while true
        invariant i < |results| && Ends(results[i..])
        invariant StreamPayload(results) == Prefixed(buffer, StreamPayload(results[i..]))
        decreases |results| - i
      {
        var r := results[i];
        assert results[i..][0] == r;
        if |r.chunk| > 0 {
          buffer := buffer + r.chunk;
        } else {
          assert buffer + r.chunk == buffer;
        }
        if r.err != NoError {
          data := if r.err == EOF then Some(buffer) else None;
          break;
        }
        assert results[i..][1..] == results[i + 1..];
        PrefixedTwice(buffer[..|buffer| - |r.chunk|], r.chunk, StreamPayload(results[i + 1..]));
        assert buffer[..|buffer| - |r.chunk|] + r.chunk == buffer;
        i := i + 1;
      }
      stream.Close();
    }

    /** The stream-based gossip path: read one whole message and hand it to
        the same decode-then-merge rule as the topic handler. A nil message
        decodes like an empty one. */
    method GossipNodeData(stream: Stream, results: seq<ReadResult>, decode: Bytes -> Option<NodeData>)
      requires Ends(results)
      modifies stream`closed, tracker`merged
      ensures stream.closed
      ensures tracker.merged == old(tracker.merged) + GossipMerges(MessageOf(StreamPayload(results)), decode)
    {
      var data := HandleStreamData(stream, results);
      var payload := if data.Some? then data.value else [];
      var nodeData := decode(payload);
      if nodeData.None? {
        return;
      }
      tracker.HandleNodeData(nodeData.value);
    }

    /** The change-dispatch loop: for every notification received before
        the node's context is cancelled, marshal it, publish it on the
        gossip topic and, for a "Joined" change, start a full sync to its
        peer; a marshal failure skips both. A publish error is only logged,
        so it changes nothing that follows. */
    method ListenToNodeTracker(inputs: seq<Select<NodeData>>, marshal: NodeData -> Option<Bytes>)
      returns (effects: seq<Effect>)
      ensures effects == DispatchAll(BeforeDone(inputs), marshal)
    {
      effects := [];
      ghost var seen: seq<NodeData> := [];
      var i := 0;
      while i < |inputs|
        invariant i <= |inputs|
        invariant BeforeDone(inputs) == seen + BeforeDone(inputs[i..])
        invariant effects == DispatchAll(seen, marshal)
      {
        if inputs[i].Done? {
          break;
        }
        BeforeDoneStep(inputs, i, seen);
        var nodeData := inputs[i].value;
        ghost var before := effects;
        var jsonData := marshal(nodeData);
        if jsonData.Some? {
          effects := effects + [Publish(NodeGossip, jsonData.value)];
          if nodeData.activity == Joined {
            effects := effects + [StartSync(nodeData.peerId)];
          }
        }
        assert effects == before + DispatchOne(nodeData, marshal);
        DispatchAllSnoc(seen, nodeData, marshal);
        seen := seen + [nodeData];
        i := i + 1;
      }
      BeforeDoneStop(inputs, i, seen);
    }

    // -----------------------------------------------------------------
    // Discovery and liveness

    /** The discovery loop: for every peer event received before the
        node's context is cancelled, connect; on success open one liveness
        stream; on success start its writer and its reader. A failure only
        moves the loop on to the next event. */
    method HandleDiscoveredPeers(inputs: seq<Select<Discovered>>) returns (steps: seq<Step>)
      ensures steps == ReactAll(BeforeDone(inputs))
    {
      steps := [];
      ghost var seen: seq<Discovered> := [];
      var i := 0;
      while i < |inputs|
        invariant i <= |inputs|
        invariant BeforeDone(inputs) == seen + BeforeDone(inputs[i..])
        invariant steps == ReactAll(seen)
      {
        if inputs[i].Done? {
          break;
        }
        BeforeDoneStep(inputs, i, seen);
        var d := inputs[i].value;
        ReactAllSnoc(seen, d);
        seen := seen + [d];
        i := i + 1;
        ghost var before := steps;
        steps := steps + [Connect(d.event.peer, d.event.addr)];
        if !d.connectOk {
          assert steps == before + React(d);
          continue;
        }
        steps := steps + [OpenStream(d.event.peer, Liveness)];
        if d.streamOk {
          steps := steps + [StartWriter(d.event), StartReader(d.event)];
        }
        assert steps == before + React(d);
      }
      BeforeDoneStop(inputs, i, seen);
    }

    /** The liveness reader: echo every line read except a lone newline;
        stop at the first read error or at an empty string, closing the
        stream on either exit. */
    method ReadData(stream: Stream, lines: seq<LineRead>) returns (echoed: seq<string>, exit: Option<ReadExit>)
      modifies stream`closed
      ensures ReaderOutcome(echoed, exit) == ReaderRun(lines)
      ensures stream.closed == (old(stream.closed) || exit.Some?)
    {
      echoed, exit := [], None;
      var i := 0;
      while i < |lines|
        invariant i <= |lines|
        invariant ReaderRun(lines) == ReaderOutcome(echoed + ReaderRun(lines[i..]).echoed, ReaderRun(lines[i..]).exit)
        invariant exit.None? && stream.closed == old(stream.closed)
      {
        ReaderRunAt(lines, i);
        ghost var old_echoed := echoed;
        var str := lines[i];
        if str.failed {
          exit := Some(ReadError);
          break;
        }
        if str.text == "" {
          exit := Some(EmptyRead);
          break;
        }
        ghost var shown := if str.text != "\n" then [str.text] else [];
        if str.text != "\n" {
          echoed := echoed + [str.text];
        }
        assert echoed + ReaderRun(lines[i + 1..]).echoed == old_echoed + (shown + ReaderRun(lines[i + 1..]).echoed);
        i := i + 1;
      }
      if exit.Some? {
        stream.Close();
      }
    }

    /** The liveness writer: on every iteration build the hello line from
        the event's source and the node's address, write it and flush it;
        the first write or flush error ends the loop and closes the stream.
        The node's address must resolve: a nil address would be
        dereferenced. */
    method WriteData(event: PeerEvent, stream: Stream, attempts: seq<WriteAttempt>)
      returns (delivered: seq<string>, exit: Option<WriteExit>)
      requires |attempts| > 0 ==> ResolvedAddr().Some?
      modifies this`priorityAddrs, this`lookups, stream`closed
      ensures |attempts| > 0 ==>
        WriterOutcome(delivered, exit) == WriterRun(HelloMessage(event.source, old(ResolvedAddr()).value), attempts)
      ensures |attempts| == 0 ==> delivered == [] && exit.None?
      ensures stream.closed == (old(stream.closed) || exit.Some?)
      ensures ResolvedAddr() == old(ResolvedAddr())
    {
      delivered, exit := [], None;
      ghost var msg := if ResolvedAddr().Some? then HelloMessage(event.source, ResolvedAddr().value) else "";
      var i := 0;
      while i < |attempts|
        invariant i <= |attempts|
        invariant ResolvedAddr() == old(ResolvedAddr())
        invariant WriterRun(msg, attempts) ==
          WriterOutcome(delivered + WriterRun(msg, attempts[i..]).delivered, WriterRun(msg, attempts[i..]).exit)
        invariant exit.None? && stream.closed == old(stream.closed)
      {
        WriterRunAt(msg, attempts, i);
        var addr := GetMultiAddrs();
        var sendData := HelloMessage(event.source, addr.value);
        assert sendData == msg;
        if attempts[i].writeFailed {
          exit := Some(WriteError);
          break;
        }
        if attempts[i].flushFailed {
          exit := Some(FlushError);
          break;
        }
        assert (delivered + [sendData]) + WriterRun(msg, attempts[i + 1..]).delivered ==
          delivered + ([msg] + WriterRun(msg, attempts[i + 1..]).delivered);
        delivered := delivered + [sendData];
        i := i + 1;
      }
      if exit.Some? {
        stream.Close();
      }
    }
  }

}
