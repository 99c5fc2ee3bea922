/** The values the oracle node's protocol layer moves around: registry
    records, full-sync pages, peer events and the identifiers of the three
    logical channels. */
module Types {

  newtype byte = x: int | 0 <= x < 256

  /** A Go `[]byte`: a JSON document, a stream chunk, a wire line. */
  type Bytes = seq<byte>

  const Newline: byte := 10
  const CarriageReturn: byte := 13

  type PeerId = string

  /** The textual form (`String()`) of a multiaddress. */
  type Multiaddr = string

  /** The activity tag of a registry record. Only `Joined` is singled out by
      the protocol layer; every other tag is handled alike. */
  datatype Activity = Joined | Left | Other(tag: string)

  /** One registry record per peer identity. `state` stands for the fields
      the registry owns and this layer never inspects. */
  datatype NodeData = NodeData(peerId: PeerId, activity: Activity, state: string)

  /** The full-sync wire envelope: one slice of one registry snapshot. */
  datatype NodeDataPage = NodeDataPage(
    data: seq<NodeData>,
    pageNumber: int,
    totalPages: int,
    totalRecords: int)

  /** The three logical channels multiplexed over one transport: the
      liveness protocol, the full-sync protocol and the gossip topic.
      They are distinct by construction. */
  datatype Channel = Liveness | NodeDataSync | NodeGossip

  datatype PeerAction = PeerJoined | PeerLeft

  /** A discovery observation: who reported it, what happened, and where the
      peer can be reached. */
  datatype PeerEvent = PeerEvent(source: string, action: PeerAction, peer: PeerId, addr: Multiaddr)

  /** One case of a `select` between a channel receive and the node's
      context being cancelled. */
  datatype Select<T> = Recv(value: T) | Done

  /** The values received before the first `Done`: a dispatch loop handles
      exactly these and then returns. */
  function BeforeDone<T>(inputs: seq<Select<T>>): (vs: seq<T>)
    ensures |vs| <= |inputs|
  {
    if inputs == [] then []
    else match inputs[0]
      case Done => []
      case Recv(v) => [v] + BeforeDone(inputs[1..])
  }

  lemma BeforeDoneAt<T>(inputs: seq<Select<T>>, i: nat)
    requires i < |inputs|
    ensures inputs[i].Done? ==> BeforeDone(inputs[i..]) == []
    ensures inputs[i].Recv? ==> BeforeDone(inputs[i..]) == [inputs[i].value] + BeforeDone(inputs[i + 1..])
  {
    assert inputs[i..][0] == inputs[i];
    assert inputs[i..][1..] == inputs[i + 1..];
  }

  lemma BeforeDoneEnd<T>(inputs: seq<Select<T>>, i: nat)
    requires i <= |inputs|
    requires i == |inputs| || inputs[i].Done?
    ensures BeforeDone(inputs[i..]) == []
  {
    if i < |inputs| {
      BeforeDoneAt(inputs, i);
    }
  }

  /** One step of a dispatch loop: having handled `seen`, a value received
      at `i` extends what has been handled. */
  lemma BeforeDoneStep<T>(inputs: seq<Select<T>>, i: nat, seen: seq<T>)
    requires i < |inputs| && inputs[i].Recv?
    requires BeforeDone(inputs) == seen + BeforeDone(inputs[i..])
    ensures BeforeDone(inputs) == (seen + [inputs[i].value]) + BeforeDone(inputs[i + 1..])
  {
    BeforeDoneAt(inputs, i);
  }

  /** The end of a dispatch loop: at a `Done` or at the end of the input,
      what has been handled is all there is to handle. */
  lemma BeforeDoneStop<T>(inputs: seq<Select<T>>, i: nat, seen: seq<T>)
    requires i <= |inputs| && (i == |inputs| || inputs[i].Done?)
    requires BeforeDone(inputs) == seen + BeforeDone(inputs[i..])
    ensures BeforeDone(inputs) == seen
  {
    BeforeDoneEnd(inputs, i);
    assert seen + [] == seen;
  }

  /** Once the context is cancelled the loop has returned: nothing that
      arrives afterwards is handled. */
  lemma {:induction false} NothingAfterDone<T>(a: seq<Select<T>>, b: seq<Select<T>>)
    ensures BeforeDone(a + [Done] + b) == BeforeDone(a + [Done])
  {
    if a != [] {
      assert (a + [Done] + b)[0] == a[0] && (a + [Done])[0] == a[0];
      assert (a + [Done] + b)[1..] == a[1..] + [Done] + b;
      assert (a + [Done])[1..] == a[1..] + [Done];
      NothingAfterDone(a[1..], b);
    } else {
      assert (a + [Done] + b)[0] == Done;
      assert (a + [Done])[0] == Done;
    }
  }

}
