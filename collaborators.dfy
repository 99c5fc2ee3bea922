/** The boundary collaborators the protocol layer talks to, reduced to what
    it observes of them: the registry's snapshot and the log of its merge
    calls, and a transport stream's written frames and closed flag. */
module Collaborators {
  import opened Types

  /** The registry (`NodeEventTracker`). Its merge semantics are not part of
      this model: `HandleNodeData` is an opaque sink whose calls are
      recorded in `merged`. */
  class NodeEventTracker {
    /** What `GetAllNodeData` returns: the registry's ordered snapshot. */
    var records: seq<NodeData>
    /** Every record handed to `HandleNodeData`, in call order. */
    var merged: seq<NodeData>

    constructor (records: seq<NodeData>)
      ensures this.records == records && merged == []
    {
      this.records := records;
      merged := [];
    }

    function GetAllNodeData(): (snapshot: seq<NodeData>)
      reads this
      ensures snapshot == records
    {
      records
    }

    method HandleNodeData(d: NodeData)
      modifies this`merged
      ensures merged == old(merged) + [d]
    {
      merged := merged + [d];
    }
  }

  /** A transport stream to one peer on one channel. */
  class Stream {
    const channel: Channel
    const peer: PeerId
    /** The frames successfully written, in order. */
    var written: seq<Bytes>
    var closed: bool

    constructor Open(channel: Channel, peer: PeerId)
      ensures this.channel == channel && this.peer == peer
      ensures written == [] && !closed
    {
      this.channel := channel;
      this.peer := peer;
      written := [];
      closed := false;
    }

    /** A write; `fails` is the transport's answer, and a failed write puts
        nothing on the stream. */
    method Write(frame: Bytes, fails: bool) returns (err: bool)
      modifies this`written
      ensures err == fails
      ensures written == old(written) + (if fails then [] else [frame])
    {
      err := fails;
      if !fails {
        written := written + [frame];
      }
    }

    method Close()
      modifies this`closed
      ensures closed
    {
      closed := true;
    }
  }

}
