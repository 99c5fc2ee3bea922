/** The full-sync protocol as functions of its inputs: the frames the
    sender writes for one snapshot (`SendNodeData` / `SendNodeDataPage`)
    and the merge calls the receiver makes for the lines it scans
    (`ReceiveNodeData`), with the end-to-end round trip between them. */
module Sync {
  import opened Wrappers
  import opened Types
  import opened Pagination
  import opened Framing

  /** What one `SendNodeDataPage` call puts on the stream: nothing when the
      page does not marshal or the write fails, else the framed JSON. */
  function FrameOf(json: Option<Bytes>, writeFails: bool): (fs: seq<Bytes>)
    ensures |fs| <= 1
    ensures fs != [] <==> json.Some? && !writeFails
    ensures fs != [] ==> fs[0] == Frame(json.value)
  {
    if json.Some? && !writeFails then [Frame(json.value)] else []
  }

  /** The frames written for `pages`, in order; `writeFails(i)` is the
      transport's answer to the write of page number `i`. */
  function FramesOf(pages: seq<NodeDataPage>, marshal: NodeDataPage -> Option<Bytes>, writeFails: int -> bool): (fs: seq<Bytes>)
    ensures |fs| <= |pages|
  {
    if pages == [] then []
    else
      var last := pages[|pages| - 1];
      FramesOf(pages[..|pages| - 1], marshal, writeFails) + FrameOf(marshal(last), writeFails(last.pageNumber))
  }

  lemma FramesOfSnoc(pages: seq<NodeDataPage>, page: NodeDataPage, marshal: NodeDataPage -> Option<Bytes>, writeFails: int -> bool)
    ensures FramesOf(pages + [page], marshal, writeFails) ==
      FramesOf(pages, marshal, writeFails) + FrameOf(marshal(page), writeFails(page.pageNumber))
  {
    assert (pages + [page])[..|pages|] == pages;
  }

  /** Sending page `j` after the first `j` pages writes the frames of the
      first `j + 1` pages. */
  lemma FramesOfNextPage(snapshot: seq<NodeData>, k: Positive, j: nat, marshal: NodeDataPage -> Option<Bytes>, writeFails: int -> bool)
    requires j < TotalPages(|snapshot|, k)
    ensures j * k <= |snapshot|
    ensures FramesOf(PagesUpTo(snapshot, k, j + 1), marshal, writeFails) ==
      FramesOf(PagesUpTo(snapshot, k, j), marshal, writeFails) + FrameOf(marshal(MakePage(snapshot, k, j)), writeFails(j))
  {
    PageStartInRange(|snapshot|, k, j);
    FramesOfSnoc(PagesUpTo(snapshot, k, j), MakePage(snapshot, k, j), marshal, writeFails);
  }

  /** Everything one full sync of `snapshot` writes to its stream. */
  function SentFrames(snapshot: seq<NodeData>, k: Positive, marshal: NodeDataPage -> Option<Bytes>, writeFails: int -> bool): seq<Bytes>
  {
    FramesOf(Pages(snapshot, k), marshal, writeFails)
  }

  /** The records forwarded for one scanned line: those of its page, or
      none when the line does not decode. */
  function DataOf(page: Option<NodeDataPage>): (ds: seq<NodeData>)
    ensures page.None? ==> ds == []
    ensures page.Some? ==> ds == page.value.data
  {
    match page
    case None => []
    case Some(p) => p.data
  }

  /** The merge calls the receiver makes for `lines`, in order. */
  function Received(lines: seq<Bytes>, decode: Bytes -> Option<NodeDataPage>): seq<NodeData>
  {
    if lines == [] then []
    else Received(lines[..|lines| - 1], decode) + DataOf(decode(lines[|lines| - 1]))
  }

  /** Lines are handled independently: the merges for two stretches of
      lines are the merges of the first followed by those of the second. */
  lemma {:induction false} ReceivedAppend(a: seq<Bytes>, b: seq<Bytes>, decode: Bytes -> Option<NodeDataPage>)
    ensures Received(a + b, decode) == Received(a, decode) + Received(b, decode)
  {
    if b == [] {
      assert a + b == a;
    } else {
      assert (a + b)[..|a + b| - 1] == a + b[..|b| - 1];
      ReceivedAppend(a, b[..|b| - 1], decode);
    }
  }

  /** A corrupt line is skipped and the scan goes on: nothing of the
      valid lines around it is lost. */
  lemma CorruptLineSkipped(a: seq<Bytes>, bad: Bytes, b: seq<Bytes>, decode: Bytes -> Option<NodeDataPage>)
    requires decode(bad).None?
    ensures Received(a + [bad] + b, decode) == Received(a, decode) + Received(b, decode)
  {
    assert Received([bad], decode) == [] by {
      assert [bad][..0] == [];
    }
    ReceivedAppend(a, [bad], decode);
    ReceivedAppend(a + [bad], b, decode);
  }

  /** The marshalled pages, one per page; defined when none fails to
      marshal. */
  function Encoded(pages: seq<NodeDataPage>, marshal: NodeDataPage -> Option<Bytes>): (js: seq<Bytes>)
    requires forall i :: 0 <= i < |pages| ==> marshal(pages[i]).Some?
    ensures |js| == |pages|
    ensures forall i :: 0 <= i < |js| ==> js[i] == marshal(pages[i]).value
  {
    seq(|pages|, i requires 0 <= i < |pages| => marshal(pages[i]).value)
  }

  /** When every page marshals and every write succeeds, one frame per
      page is written, in page order. */
  lemma {:induction false} FramesWhenAllSucceed(pages: seq<NodeDataPage>, marshal: NodeDataPage -> Option<Bytes>, writeFails: int -> bool)
    requires forall i :: 0 <= i < |pages| ==> marshal(pages[i]).Some? && !writeFails(pages[i].pageNumber)
    ensures FramesOf(pages, marshal, writeFails) == Framed(Encoded(pages, marshal))
  {
    if pages != [] {
      var init := pages[..|pages| - 1];
      var last := pages[|pages| - 1];
      FramesWhenAllSucceed(init, marshal, writeFails);
      var fin := Framed(Encoded(init, marshal));
      var f := Frame(marshal(last).value);
      assert FramesOf(pages, marshal, writeFails) == fin + [f];
      assert Framed(Encoded(pages, marshal)) == fin + [f];
    }
  }

  /** The receiver, fed the marshalled pages, forwards exactly the records
      of the pages, in order, provided decoding inverts marshalling. */
  lemma {:induction false} ReceivedEncoded(pages: seq<NodeDataPage>, marshal: NodeDataPage -> Option<Bytes>, decode: Bytes -> Option<NodeDataPage>)
    requires forall i :: 0 <= i < |pages| ==> marshal(pages[i]).Some? && decode(marshal(pages[i]).value) == Some(pages[i])
    ensures Received(Encoded(pages, marshal), decode) == Flatten(pages)
  {
    if pages != [] {
      var init := pages[..|pages| - 1];
      ReceivedEncoded(init, marshal, decode);
      assert Encoded(pages, marshal)[..|pages| - 1] == Encoded(init, marshal);
    }
  }

  /** End to end: a peer that scans the bytes of one full sync and merges
      every record of every page it decodes merges the sender's snapshot,
      record for record and in order, when every page marshals to a
      line-clean document that decodes back to it and every write
      succeeds. */
  lemma FullSyncRoundTrip(snapshot: seq<NodeData>, k: Positive, marshal: NodeDataPage -> Option<Bytes>,
                          decode: Bytes -> Option<NodeDataPage>, writeFails: int -> bool)
    requires forall i :: 0 <= i < |Pages(snapshot, k)| ==>
      var p := Pages(snapshot, k)[i];
      marshal(p).Some? && Clean(marshal(p).value) && decode(marshal(p).value) == Some(p) && !writeFails(i)
    ensures Received(ScanLines(Join(SentFrames(snapshot, k, marshal, writeFails))), decode) == snapshot
  {
    var pages := Pages(snapshot, k);
    forall i | 0 <= i < |pages|
      ensures marshal(pages[i]).Some? && !writeFails(pages[i].pageNumber)
    {
      PageAt(snapshot, k, i);
    }
    FramesWhenAllSucceed(pages, marshal, writeFails);
    var js := Encoded(pages, marshal);
    ScanFramed(js);
    ReceivedEncoded(pages, marshal, decode);
    PagesRoundTrip(snapshot, k);
  }

  /** A write that fails loses exactly that page's frame; the frames of the
      other pages still go out in order. */
  lemma {:induction false} FailedWriteLosesOnlyItsPage(pages: seq<NodeDataPage>, i: nat, marshal: NodeDataPage -> Option<Bytes>, writeFails: int -> bool)
    requires i < |pages|
    requires writeFails(pages[i].pageNumber)
    ensures FramesOf(pages, marshal, writeFails) ==
      FramesOf(pages[..i], marshal, writeFails) + FramesOf(pages[i + 1..], marshal, writeFails)
  {
    var head := pages[..i + 1];
    assert head[..i] == pages[..i];
    assert FramesOf(head, marshal, writeFails) == FramesOf(pages[..i], marshal, writeFails);
    assert head + pages[i + 1..] == pages;
    FramesOfAppend(head, pages[i + 1..], marshal, writeFails);
  }

  lemma {:induction false} FramesOfAppend(a: seq<NodeDataPage>, b: seq<NodeDataPage>, marshal: NodeDataPage -> Option<Bytes>, writeFails: int -> bool)
    ensures FramesOf(a + b, marshal, writeFails) == FramesOf(a, marshal, writeFails) + FramesOf(b, marshal, writeFails)
  {
    if b == [] {
      assert a + b == a;
    } else {
      assert (a + b)[..|a + b| - 1] == a + b[..|b| - 1];
      FramesOfAppend(a, b[..|b| - 1], marshal, writeFails);
    }
  }

}
