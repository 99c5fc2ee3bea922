# Oracle node protocol layer — a Dafny model

This project models the protocol layer of a node in a peer-to-peer oracle
network (Go package `masa`, files `pkg/oracle_node_listener.go` and
`pkg/oracle_node.go`). That layer keeps a gossiping directory of peers up to
date over two independent delivery channels:

- **Full sync**: when the registry reports that a peer joined, the node sends
  that peer its whole registry snapshot. The snapshot is cut into pages of
  `PageSize` records, each marshalled to one JSON line. The receiver scans the
  lines, skips any line that does not decode, and hands every record of every
  decoded page to the registry.
- **Gossip**: every registry change is published on the gossip topic. Inbound
  gossip, over the topic or over a single-message stream, is decoded and
  handed to the registry.

Beside these, the model covers the node's reaction to discovered peers
(connect, open a liveness stream, start its writer and reader), the liveness
writer and reader loops, the memoised priority address and the
publisher flag.

Modules:

- `Wrappers`: `Option`.
- `Types`: records, pages, peer events, channel identifiers, and
  `Select`/`BeforeDone`, which model a `select` between a channel receive and
  cancellation of the node's context.
- `Pagination`: the page codec (`SendNodeDataPage`'s index arithmetic): page
  count, page contents and sizes, and the round trip.
- `Framing`: newline framing on the sync stream, and the bufio line scanner's
  splitting rule.
- `Sync`: what a full sync writes and what the receiver merges, with the
  end-to-end round trip.
- `Gossip`: the decode-then-merge rule, the single-message stream reader and
  the change-dispatch rule.
- `Liveness`: the per-peer discovery reaction and the liveness writer and
  reader.
- `Collaborators`: the registry (`NodeEventTracker`) and a transport
  `Stream`, as classes with only the state this layer observes.
- `Oracle`: the `OracleNode` class. Every handler is a method over the
  node's state and the transport's answers. Each method is proved against the
  specification functions of the modules above.

External calls become parameters:
- JSON marshalling and unmarshalling are function parameters that return
  `Option` (None is an error).
- Every answer from the transport is an input: connect, stream open, write,
  flush, read, and the scanner's lines.
- Channel receives and cancellation are an input sequence of `Select` values.
- A goroutine started by a loop is recorded as a step in the trace the loop
  returns (`StartSync`, `StartWriter`, `StartReader`).

Where the intended behaviour and the code part ways, the model follows the
code:
- A full sync is meant to slice one registry snapshot for every page. The
  code reads the registry again for every page
  (`pkg/oracle_node_listener.go:62`). See Findings.
- The liveness reader skips a lone `"\n"` and echoes nothing for it; a blank
  line does not end it. It stops on a read error or on an empty string.
  Under the buffered reader's contract, an empty string never comes without
  an error, so only read errors end the loop (`Liveness.ReaderRunSpec`).
- The liveness writer stops on a flush error as well as on a write error.

## Model

| member | source | states |
|---|---|---|
| Pagination.TotalPagesBounds | pkg/oracle_node_listener.go:93 | the page count is `ceil(N / PageSize)`: the pages cover all N records, one page fewer would not, and it is 0 exactly when N is 0 |
| Pagination.TotalPagesIsCeilDiv | pkg/oracle_node_listener.go:64 | the page count equals the integer ceiling `(N + K - 1) / K` |
| Pagination.MakePage | pkg/oracle_node_listener.go:61-76 | page `i` carries records `[i*K, min(N, (i+1)*K))` of the snapshot, its own page number and the snapshot's page and record totals; the start index must lie within the snapshot or the slice panics |
| Pagination.MakePageSizes | pkg/oracle_node_listener.go:66-70 | a page holds at most K records, at least one when `i` is below the page count, and exactly K when it is not the last page |
| Pagination.PageStartInRange | pkg/oracle_node_listener.go:66-72 | for every page index the sending loop visits, the unguarded start index lies inside the snapshot |
| Pagination.PageAt | pkg/oracle_node_listener.go:62-76 | page `i` of the sent sequence has page number `i`, announces the number of pages actually sent and the snapshot size, and holds the `i`-th slice |
| Pagination.PageSizes | pkg/oracle_node_listener.go:66-70 | every page but the last holds exactly PageSize records; the last holds between 1 and PageSize |
| Pagination.PagesRoundTrip | pkg/oracle_node_listener.go:102-104 | concatenating the records of pages 0 .. totalPages-1 in order gives the snapshot back exactly |
| Pagination.EmptySnapshotHasNoPages | pkg/oracle_node_listener.go:91-104 | an empty registry yields no page: the stream is opened and closed with nothing written |
| Pagination.TwoHundredFiftyRecords | pkg/oracle_node_listener.go:93-104 | 250 records in pages of 100 give 3 pages of sizes 100, 100 and 50 |
| Pagination.PageFromCurrent | pkg/oracle_node_listener.go:62-72 | a page built from the registry as read at page time exists exactly when its start index is within that read, and carries that read's record count |
| Pagination.PagesAsWritten | pkg/oracle_node_listener.go:62-64 | the pages as the sender builds them: page `i` is sliced from the registry's contents when page `i` is built |
| Pagination.RereadSnapshotDisagrees | pkg/oracle_node_listener.go:62-64 | a registry growing from 2 to 3 records between sizing and page 0 (PageSize 2) yields one page whose envelope announces 2 pages and 3 records, and the third record is never sent |
| Pagination.SingleSnapshotEnvelopesAgree | pkg/oracle_node_listener.go:91-104 | with one snapshot sliced for all pages, each page announces exactly the number of pages sent and the number of records they carry |
| Framing.Frame | pkg/oracle_node_listener.go:84 | a written unit is the JSON document followed by one newline |
| Framing.ScanFramed | pkg/oracle_node_listener.go:110-113 | scanning the bytes of framed, line-clean payloads yields the payloads back, one per line, in order |
| Sync.FrameOf | pkg/oracle_node_listener.go:78-87 | one page puts at most one frame on the stream: none on a marshal or write failure, else its framed JSON |
| Sync.FramesWhenAllSucceed | pkg/oracle_node_listener.go:102-104 | when every page marshals and every write succeeds, one frame per page is written, in page order |
| Sync.FailedWriteLosesOnlyItsPage | pkg/oracle_node_listener.go:84-87 | a failed write loses only that page's frame; the frames of the pages before and after it still go out, in order |
| Sync.ReceivedAppend | pkg/oracle_node_listener.go:112-124 | lines are handled independently: the merges for two runs of lines are the merges of the first followed by those of the second |
| Sync.CorruptLineSkipped | pkg/oracle_node_listener.go:115-119 | a line that fails to decode between valid lines is skipped and nothing of the valid lines is lost |
| Sync.ReceivedEncoded | pkg/oracle_node_listener.go:115-123 | fed the marshalled pages, the receiver merges the records of all pages in order, provided decoding inverts marshalling |
| Sync.FullSyncRoundTrip | pkg/oracle_node_listener.go:84-123 | a peer that scans one full sync and merges every decoded page merges the sender's snapshot record for record, in order, when marshalling round-trips, produces line-clean documents, and every write succeeds |
| Gossip.GossipMerges | pkg/oracle_node_listener.go:44-52 | a gossip payload causes no merge when it does not decode and exactly one merge, of the decoded record, when it does |
| Gossip.StreamPayloadSpec | pkg/oracle_node_listener.go:153-169 | the stream reader returns the concatenation of every chunk up to and including the one read with EOF, and nil on any other error even if bytes were read before |
| Gossip.StreamGossipNeedsCleanEnd | pkg/oracle_node_listener.go:131-141 | the stream gossip path merges only when the stream ended cleanly and the accumulated payload decodes |
| Gossip.DispatchOneRule | pkg/oracle_node_listener.go:21-36 | for one notification: a marshal error skips both publish and sync; otherwise exactly one publish on the gossip topic comes first, followed by a sync to the record's own peer exactly when its activity is Joined; the number of calls is 0, 1 or 2 accordingly |
| Gossip.DispatchAllFilters | pkg/oracle_node_listener.go:18-42 | over a run of notifications, the published payloads are the marshalled records in order, and the full syncs go to exactly the peers of the Joined records that marshal |
| Gossip.JoinedAndLeft | pkg/oracle_node_listener.go:29-36 | a Joined change publishes once and starts one sync to its peer; a Left change only publishes |
| Types.NothingAfterDone | pkg/oracle_node_listener.go:38-39 | once the context is cancelled the dispatch loop returns; nothing received later is handled |
| Liveness.ReactRule | pkg/oracle_node.go:160-178 | per peer event: one connect first; a stream is opened only after a successful connect; writer and reader start only when the stream opened as well |
| Liveness.OneConnectPerEvent | pkg/oracle_node.go:157-183 | every event received gets exactly one connect attempt: no retry, and a failure moves on to the next event |
| Liveness.HelloMessage | pkg/oracle_node.go:265 | the liveness line is `source + ": Hello from " + addr + "\n"`; it ends in a newline and has no other newline when its parts have none |
| Liveness.WriterRunSpec | pkg/oracle_node.go:263-279 | the writer delivers the same message on every iteration up to the first write or flush error and stops there, naming the failed call; it stops only on such an error, and when none occurs every iteration delivers |
| Liveness.ReaderRunSpec | pkg/oracle_node.go:238-252 | under the buffered reader's contract, the reader echoes every line except a lone newline, up to the first read error, and stops exactly there; the empty-string exit is never taken |
| Liveness.HelloIsEchoed | pkg/oracle_node.go:247-250 | a liveness line from a writer, read as one line, is echoed by the reader at the other end |
| Oracle.OracleNode.GetMultiAddrs | pkg/oracle_node.go:47-53 | the selection rule runs only while no address is stored; its answer is stored and returned, and a stored address is returned without recomputation, so later calls answer the same |
| Oracle.OracleNode.IsPublisher | pkg/oracle_node.go:282-285 | a node is a publisher exactly when its signature is non-empty |
| Oracle.OracleNode.SendNodeDataPage | pkg/oracle_node_listener.go:61-88 | writes the framed JSON of the page sliced from the registry, or nothing on a marshal or write failure; requires the start index within the registry, else the slice panics |
| Oracle.OracleNode.SendNodeData | pkg/oracle_node_listener.go:90-105 | a failed stream open sends nothing; otherwise the stream to the peer on the sync protocol receives exactly the frames of pages 0 .. totalPages-1 of the snapshot, in order, and is closed |
| Oracle.OracleNode.ReceiveNodeData | pkg/oracle_node_listener.go:107-129 | the registry receives, in order, the records of every decoded line; undecodable lines are skipped |
| Oracle.OracleNode.HandleMessage | pkg/oracle_node_listener.go:44-52 | merges nothing on a decode failure and exactly the decoded record otherwise |
| Oracle.OracleNode.HandleStreamData | pkg/oracle_node_listener.go:143-170 | returns the accumulated bytes on a clean end of stream and nil on another error, and the stream is closed |
| Oracle.OracleNode.GossipNodeData | pkg/oracle_node_listener.go:131-141 | reads one whole message, then merges nothing or exactly the decoded record; the stream is closed |
| Oracle.OracleNode.ListenToNodeTracker | pkg/oracle_node_listener.go:18-42 | the calls made are the dispatch rule applied, in order, to every notification received before cancellation |
| Oracle.OracleNode.HandleDiscoveredPeers | pkg/oracle_node.go:157-183 | the calls made are the per-event reaction applied, in order, to every event received before cancellation |
| Oracle.OracleNode.ReadData | pkg/oracle_node.go:230-253 | echoes what the reader specification says and closes the stream exactly when the loop exits |
| Oracle.OracleNode.WriteData | pkg/oracle_node.go:255-280 | delivers what the writer specification says for the hello line built from the event source and the memoised address, and closes the stream exactly when the loop exits |
| Collaborators.NodeEventTracker.HandleNodeData | pkg/oracle_node_listener.go:122 | every merge call is recorded, in order |

## Left out

- JSON encoding and decoding: marshal and unmarshal are function parameters that may fail. The model does not restate `encoding/json`. The end-to-end lemma assumes that decoding inverts marshalling and that marshalled documents contain no newline.
- `math.Ceil` over `float64`: the page count is an integer function, proved equal to `ceil(N / K)` and to `(N + K - 1) / K`. The float computation agrees with it for every record count a float represents exactly.
- Go `int` width: page numbers and counts are unbounded integers. No overflow is reachable for registry sizes that fit in memory.
- The value of `PageSize` is not part of this model. It is a positive per-node constant (`pageSize`), and the pure functions take it as a parameter.
- The values of the protocol and topic identifiers are not part of this model. They are the three distinct constructors of `Channel`.
- `myNetwork.GetPriorityAddress` is not part of this model. It is the node's `priorityOf` function, which may return nil.
- Goroutines, `select`, contexts and `time.Sleep(30s)`: each loop is a fold over an input sequence, and a spawned goroutine is a step in the returned trace. The sync started by `ListenToNodeTracker` is not run inside that loop. `SendNodeData` models it on its own. The writer and reader sharing one liveness stream concurrently is not modelled.
- Logging, the console colour codes of the reader's echo, and the logged errors from closing a stream.
- The registry's merge semantics and its thread safety: `HandleNodeData` only records its calls. Because the model is sequential, the registry does not change while a full sync is sent.
- The line scanner: the receiver takes the scanner's lines as input. `Framing.ScanLines` models the splitting rule. It does not model the 64 KiB token limit or the scan error, which end the scan after the lines modelled.
- Partial writes: a failed write puts nothing on the stream.
- Oracle.OracleNode.HandleStreamData: requires that some read reports an error (`Gossip.Ends`). On a stream that never reports one, a peer that stays silent without closing, the loop at `pkg/oracle_node_listener.go:153-168` never returns and the handler blocks for the stream's lifetime. The model does not capture that non-terminating run.
- Oracle.OracleNode.WriteData: requires a resolved address once the loop runs. On a nil address, `.String()` at `pkg/oracle_node.go:265` dereferences nil and the goroutine panics. `Start` already dereferences the same memoised address (`pkg/oracle_node.go:120`), so every call made after `Start` meets the requires.
- `handleStreamData` reads into a 1024-byte buffer. The chunk size does not affect the result and is not modelled. On a clean end with no bytes, Go returns a nil slice and the model returns an empty payload. Both decode the same way.
- `NewOracleNode`, `Start` and `handleStream`: transport, security, NAT, DHT and mDNS wiring and handler registration. `handleStream` only logs what `handleStreamData` returns. Its routing-table code is commented out.
- The staking client, the HTTP bridge and the command-line entry point.

## Findings

| source | as written | input that shows it | evidently intended | confidence | as-written member | corrected member |
|---|---|---|---|---|---|---|
| pkg/oracle_node_listener.go:62-64 | every page reads the registry again and recomputes `totalPages` and `totalRecords` from that read, while the number of pages sent was fixed by an earlier read (line 91-93) | PageSize 2; the registry holds [a, b] when the loop is sized and [a, b, c] when page 0 is built: one page [a, b] goes out announcing 2 pages and 3 records, and c is never sent | slice every page from the one snapshot that sized the loop, so that envelopes agree with what is sent | medium, not executed | Pagination.RereadSnapshotDisagrees | Pagination.SingleSnapshotEnvelopesAgree |

`Oracle.OracleNode.SendNodeDataPage` reads the registry again, as the code
does. The model is sequential, so the registry cannot change during
`Oracle.OracleNode.SendNodeData`. Its result therefore equals the corrected
single-snapshot pages.
