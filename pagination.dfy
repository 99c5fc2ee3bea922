/** The full-sync pagination codec: how a registry snapshot of N records is
    cut into pages of at most PageSize records (`SendNodeDataPage` in
    pkg/oracle_node_listener.go). */
module Pagination {
  import opened Wrappers
  import opened Types

  /** The page size: a positive constant. */
  type Positive = k: nat | k > 0 witness 1

  /** One page per started run of `k` records. */
  function TotalPages(n: nat, k: Positive): nat
    decreases n
  {
    if n == 0 then 0 else if n <= k then 1 else 1 + TotalPages(n - k, k)
  }

  /** The page count is `ceil(n / k)`: the pages cover all `n` records and
      one page fewer would not; there are none exactly when there are no
      records. */
  lemma {:induction false} TotalPagesBounds(n: nat, k: Positive)
    ensures n <= TotalPages(n, k) * k
    ensures TotalPages(n, k) == 0 || (TotalPages(n, k) - 1) * k < n
    ensures TotalPages(n, k) == 0 <==> n == 0
    decreases n
  {
    if n > k {
      TotalPagesBounds(n - k, k);
      var r := TotalPages(n - k, k);
      assert (r + 1) * k == r * k + k;
    }
  }

  /** The quotient is the one `q` with `q * k <= m < q * k + k`. */
  lemma DivUnique(m: nat, k: Positive, q: nat)
    requires q * k <= m < q * k + k
    ensures m / k == q
  {
    var d := m / k;
    assert m == d * k + m % k;
    if d < q {
      MulMonotone(d + 1, q, k);
    } else if q < d {
      MulMonotone(q + 1, d, k);
    }
  }

  /** The page count is the integer ceiling `(n + k - 1) / k`. */
  lemma TotalPagesIsCeilDiv(n: nat, k: Positive)
    ensures TotalPages(n, k) == (n + k - 1) / k
  {
    TotalPagesBounds(n, k);
    var r := TotalPages(n, k);
    if r > 0 {
      assert (r - 1) * k + k == r * k;
    }
    DivUnique(n + k - 1, k, r);
  }

  /** `endIndex`: one past the last record of page `i`, clamped to `n`. */
  function PageEnd(n: nat, k: Positive, i: nat): nat
  {
    if i * k + k > n then n else i * k + k
  }

  lemma MulMonotone(a: nat, b: nat, k: nat)
    requires a <= b
    ensures a * k <= b * k
  {
  }

  /** Page `i` of `snapshot`. The start index is not guarded in the sender:
      a start beyond the snapshot would make the slice expression panic. */
  function MakePage(snapshot: seq<NodeData>, k: Positive, i: nat): (p: NodeDataPage)
    requires i * k <= |snapshot|
    ensures p.pageNumber == i
    ensures p.totalRecords == |snapshot| && p.totalPages == TotalPages(|snapshot|, k)
    ensures p.data == snapshot[i * k .. PageEnd(|snapshot|, k, i)]
  {
    var n := |snapshot|;
    NodeDataPage(snapshot[i * k .. PageEnd(n, k, i)], i, TotalPages(n, k), n)
  }

  /** A page holds at most `k` records; every page before the last counted
      one holds exactly `k`, and every counted page holds at least one. */
  lemma MakePageSizes(snapshot: seq<NodeData>, k: Positive, i: nat)
    requires i * k <= |snapshot|
    ensures |MakePage(snapshot, k, i).data| <= k
    ensures i < TotalPages(|snapshot|, k) ==> 1 <= |MakePage(snapshot, k, i).data|
    ensures i + 1 < TotalPages(|snapshot|, k) ==> |MakePage(snapshot, k, i).data| == k
  {
    var n := |snapshot|;
    var t := TotalPages(n, k);
    TotalPagesBounds(n, k);
    assert i + 1 < t ==> (i + 1) * k <= (t - 1) * k by {
      if i + 1 < t { MulMonotone(i + 1, t - 1, k); }
    }
  }

  /** Every page index the sending loop visits starts inside the snapshot. */
  lemma PageStartInRange(n: nat, k: Positive, i: nat)
    requires i < TotalPages(n, k)
    ensures i * k < n
  {
    TotalPagesBounds(n, k);
    MulMonotone(i, TotalPages(n, k) - 1, k);
  }

  /** Pages `0 .. j-1` of `snapshot`, in order. */
  function PagesUpTo(snapshot: seq<NodeData>, k: Positive, j: nat): (ps: seq<NodeDataPage>)
    requires j <= TotalPages(|snapshot|, k)
    ensures |ps| == j
  {
    if j == 0 then []
    else
      PageStartInRange(|snapshot|, k, j - 1);
      PagesUpTo(snapshot, k, j - 1) + [MakePage(snapshot, k, j - 1)]
  }

  /** Every page of `snapshot`, in the order they are sent. */
  function Pages(snapshot: seq<NodeData>, k: Positive): (ps: seq<NodeDataPage>)
    ensures |ps| == TotalPages(|snapshot|, k)
  {
    PagesUpTo(snapshot, k, TotalPages(|snapshot|, k))
  }

  /** The records of `pages`, concatenated in order: what a receiver that
      forwards every record of every page passes on. */
  function Flatten(pages: seq<NodeDataPage>): seq<NodeData>
  {
    if pages == [] then [] else Flatten(pages[..|pages| - 1]) + pages[|pages| - 1].data
  }

  lemma {:induction false} PagesUpToAt(snapshot: seq<NodeData>, k: Positive, j: nat, i: nat)
    requires j <= TotalPages(|snapshot|, k)
    requires i < j
    ensures i * k <= |snapshot|
    ensures PagesUpTo(snapshot, k, j)[i] == MakePage(snapshot, k, i)
  {
    PageStartInRange(|snapshot|, k, i);
    if i < j - 1 {
      PagesUpToAt(snapshot, k, j - 1, i);
    }
  }

  /** Page `i` of the sent sequence is `MakePage(snapshot, k, i)`: pages go
      out in increasing page number, each with the envelope of the whole
      snapshot. */
  lemma PageAt(snapshot: seq<NodeData>, k: Positive, i: nat)
    requires i < |Pages(snapshot, k)|
    ensures i * k < |snapshot|
    ensures Pages(snapshot, k)[i].pageNumber == i
    ensures Pages(snapshot, k)[i].totalPages == |Pages(snapshot, k)|
    ensures Pages(snapshot, k)[i].totalRecords == |snapshot|
    ensures Pages(snapshot, k)[i].data == snapshot[i * k .. PageEnd(|snapshot|, k, i)]
  {
    PagesUpToAt(snapshot, k, TotalPages(|snapshot|, k), i);
    PageStartInRange(|snapshot|, k, i);
  }

  /** Every page but the last holds exactly `k` records; the last holds
      between 1 and `k`. */
  lemma PageSizes(snapshot: seq<NodeData>, k: Positive, i: nat)
    requires i < |Pages(snapshot, k)|
    ensures i + 1 < |Pages(snapshot, k)| ==> |Pages(snapshot, k)[i].data| == k
    ensures i + 1 == |Pages(snapshot, k)| ==> 1 <= |Pages(snapshot, k)[i].data| <= k
  {
    PagesUpToAt(snapshot, k, TotalPages(|snapshot|, k), i);
    MakePageSizes(snapshot, k, i);
  }

  /** The end of page `j - 1` is the end of the first `j` pages, and it
      lies between the page's start and the end of the snapshot. */
  lemma PageEndOfPrefix(n: nat, k: Positive, j: nat)
    requires j > 0 && (j - 1) * k < n
    ensures (j - 1) * k <= PageEnd(n, k, j - 1) <= n
    ensures PageEnd(n, k, j - 1) == if j * k < n then j * k else n
  {
    assert (j - 1) * k + k == j * k;
  }

  /** Appending a page whose records continue where the earlier pages
      stop extends the flattened prefix of `s` to the page's end. */
  lemma FlattenExtends(s: seq<NodeData>, prev: seq<NodeDataPage>, last: NodeDataPage, lo: nat, hi: nat)
    requires lo <= hi <= |s|
    requires Flatten(prev) == s[..lo] && last.data == s[lo..hi]
    ensures Flatten(prev + [last]) == s[..hi]
  {
    assert (prev + [last])[..|prev|] == prev;
    assert s[..lo] + s[lo..hi] == s[..hi];
  }

  /** The first `j` pages are the first `j - 1` followed by page `j - 1`,
      which holds the records from where the first `j - 1` pages end to
      where the first `j` end. */
  lemma LastPageOfPrefix(snapshot: seq<NodeData>, k: Positive, j: nat) returns (last: NodeDataPage, lo: nat, hi: nat)
    requires 0 < j <= TotalPages(|snapshot|, k)
    ensures lo <= hi <= |snapshot|
    ensures (if (j - 1) * k < |snapshot| then (j - 1) * k else |snapshot|) == lo
    ensures (if j * k < |snapshot| then j * k else |snapshot|) == hi
    ensures PagesUpTo(snapshot, k, j) == PagesUpTo(snapshot, k, j - 1) + [last]
    ensures last.data == snapshot[lo..hi]
  {
    var n := |snapshot|;
    PageStartInRange(n, k, j - 1);
    PageEndOfPrefix(n, k, j);
    lo := (j - 1) * k;
    hi := PageEnd(n, k, j - 1);
    last := MakePage(snapshot, k, j - 1);
  }

  lemma {:induction false} FlattenPagesUpTo(snapshot: seq<NodeData>, k: Positive, j: nat)
    requires j <= TotalPages(|snapshot|, k)
    ensures Flatten(PagesUpTo(snapshot, k, j)) == snapshot[..if j * k < |snapshot| then j * k else |snapshot|]
  {
    if j > 0 {
      var last, lo, hi := LastPageOfPrefix(snapshot, k, j);
      FlattenPagesUpTo(snapshot, k, j - 1);
      FlattenExtends(snapshot, PagesUpTo(snapshot, k, j - 1), last, lo, hi);
    }
  }

  /** Round trip of the codec: the pages, concatenated in order, give the
      snapshot back exactly. */
  lemma PagesRoundTrip(snapshot: seq<NodeData>, k: Positive)
    ensures Flatten(Pages(snapshot, k)) == snapshot
  {
    var t := TotalPages(|snapshot|, k);
    TotalPagesBounds(|snapshot|, k);
    FlattenPagesUpTo(snapshot, k, t);
    assert snapshot[..|snapshot|] == snapshot;
  }

  /** An empty registry is a valid, empty sync: no page at all. */
  lemma EmptySnapshotHasNoPages(k: Positive)
    ensures Pages([], k) == []
  {
  }

  /** The page sizes of a page sequence. */
  function Sizes(pages: seq<NodeDataPage>): (sizes: seq<nat>)
    ensures |sizes| == |pages|
    ensures forall i :: 0 <= i < |pages| ==> sizes[i] == |pages[i].data|
  {
    if pages == [] then [] else [|pages[0].data|] + Sizes(pages[1..])
  }

  /** 250 records in pages of 100 go out as three pages of 100, 100 and 50. */
  lemma TwoHundredFiftyRecords(snapshot: seq<NodeData>)
    requires |snapshot| == 250
    ensures TotalPages(|snapshot|, 100) == 3
    ensures Sizes(Pages(snapshot, 100)) == [100, 100, 50]
  {
    var ps := Pages(snapshot, 100);
    assert TotalPages(250, 100) == 3;
    PageAt(snapshot, 100, 0);
    PageAt(snapshot, 100, 1);
    PageAt(snapshot, 100, 2);
  }

  // ---------------------------------------------------------------------
  // The page as the sender builds it: `SendNodeDataPage` asks the registry
  // for its records again for every page instead of slicing the snapshot
  // that sized the loop.

  /** Page `i` built from `current`, the records the registry holds when
      the page is built; None when the unguarded slice would panic. */
  function PageFromCurrent(current: seq<NodeData>, k: Positive, i: nat): (r: Option<NodeDataPage>)
    ensures r.Some? <==> i * k <= |current|
    ensures r.Some? ==> r.value.totalRecords == |current| && r.value.pageNumber == i
  {
    if i * k <= |current| then Some(MakePage(current, k, i)) else None
  }

  /** The pages the sender emits when the loop was sized from `sized`
      records and page `i` re-reads the registry as `rereads[i]`. */
  function PagesAsWritten(sized: nat, rereads: seq<seq<NodeData>>, k: Positive): (ps: seq<Option<NodeDataPage>>)
    requires |rereads| == TotalPages(sized, k)
    ensures |ps| == |rereads|
    ensures forall i :: 0 <= i < |ps| ==> ps[i] == PageFromCurrent(rereads[i], k, i)
  {
    seq(|rereads|, i requires 0 <= i < |rereads| => PageFromCurrent(rereads[i], k, i))
  }

  /** The registry grows from two to three records between sizing the loop
      and building page 0: one page goes out, yet its envelope announces two
      pages and three records, and the third record is never sent. */
  lemma RereadSnapshotDisagrees(a: NodeData, b: NodeData, c: NodeData)
    ensures var ps := PagesAsWritten(2, [[a, b, c]], 2);
      && |ps| == 1
      && ps[0].Some?
      && ps[0].value.data == [a, b]
      && ps[0].value.totalPages == 2
      && ps[0].value.totalRecords == 3
  {
    assert TotalPages(2, 2) == 1;
    assert TotalPages(3, 2) == 2;
  }

  /** With one snapshot sliced for every page, the envelopes agree with
      what is sent: every page announces the number of pages that go out
      and the number of records they carry together. */
  lemma SingleSnapshotEnvelopesAgree(snapshot: seq<NodeData>, k: Positive, i: nat)
    requires i < |Pages(snapshot, k)|
    ensures Pages(snapshot, k)[i].totalPages == |Pages(snapshot, k)|
    ensures Pages(snapshot, k)[i].totalRecords == |Flatten(Pages(snapshot, k))|
  {
    PageAt(snapshot, k, i);
    PagesRoundTrip(snapshot, k);
  }

}
