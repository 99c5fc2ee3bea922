/** The discovery reaction and the liveness protocol as functions of their
    inputs: what the node does for each discovered peer
    (`handleDiscoveredPeers`), what the liveness writer sends
    (`writeData`) and what the liveness reader echoes (`readData`). */
module Liveness {
  import opened Wrappers
  import opened Types

  // -------------------------------------------------------------------
  // handleDiscoveredPeers

  /** A peer event together with the transport's answers to the connect
      and to the stream open that may follow it. */
  datatype Discovered = Discovered(event: PeerEvent, connectOk: bool, streamOk: bool)

  /** An external call the discovery loop makes. */
  datatype Step =
    | Connect(peer: PeerId, addr: Multiaddr)
    | OpenStream(peer: PeerId, channel: Channel)
    | StartWriter(event: PeerEvent)
    | StartReader(event: PeerEvent)

  /** The calls made for one discovered peer. */
  function React(d: Discovered): seq<Step>
  {
    var connect := [Connect(d.event.peer, d.event.addr)];
    if !d.connectOk then connect
    else if !d.streamOk then connect + [OpenStream(d.event.peer, Liveness)]
    else connect + [OpenStream(d.event.peer, Liveness), StartWriter(d.event), StartReader(d.event)]
  }

  /** The reaction to one peer event: one connect first; a stream is opened
      only after a successful connect; the writer and the reader start
      only when the stream opened too. */
  lemma ReactRule(d: Discovered)
    ensures var steps := React(d);
      && 1 <= |steps| && steps[0] == Connect(d.event.peer, d.event.addr)
      && (!d.connectOk ==> |steps| == 1)
      && (d.connectOk ==> |steps| >= 2 && steps[1] == OpenStream(d.event.peer, Liveness))
      && ((exists i :: 0 <= i < |steps| && steps[i].OpenStream?) <==> d.connectOk)
      && (StartWriter(d.event) in steps <==> d.connectOk && d.streamOk)
      && (StartReader(d.event) in steps <==> d.connectOk && d.streamOk)
  {
  }

  /** The calls made for a run of discovered peers, in order. */
  function ReactAll(ds: seq<Discovered>): seq<Step>
  {
    if ds == [] then [] else ReactAll(ds[..|ds| - 1]) + React(ds[|ds| - 1])
  }

  lemma ReactAllSnoc(ds: seq<Discovered>, d: Discovered)
    ensures ReactAll(ds + [d]) == ReactAll(ds) + React(d)
  {
    assert (ds + [d])[..|ds|] == ds;
  }

  /** The number of connect attempts among `steps`. */
  function Connects(steps: seq<Step>): nat
  {
    if steps == [] then 0 else Connects(steps[..|steps| - 1]) + (if steps[|steps| - 1].Connect? then 1 else 0)
  }

  lemma {:induction false} ConnectsAppend(a: seq<Step>, b: seq<Step>)
    ensures Connects(a + b) == Connects(a) + Connects(b)
  {
    if b == [] {
      assert a + b == a;
    } else {
      assert (a + b)[..|a + b| - 1] == a + b[..|b| - 1];
      ConnectsAppend(a, b[..|b| - 1]);
    }
  }

  /** Each discovered peer gets exactly one connect attempt: no retry, and
      a failed connect does not stop the loop from trying the next peer. */
  lemma {:induction false} OneConnectPerEvent(ds: seq<Discovered>)
    ensures Connects(ReactAll(ds)) == |ds|
  {
    if ds != [] {
      var d := ds[|ds| - 1];
      OneConnectPerEvent(ds[..|ds| - 1]);
      ConnectsAppend(ReactAll(ds[..|ds| - 1]), React(d));
      var steps := React(d);
      assert Connects(steps) == 1 by {
        var c := [Connect(d.event.peer, d.event.addr)];
        assert Connects(c) == 1 by { assert c[..0] == []; }
        ConnectsAppend(c, steps[1..]);
        assert steps == c + steps[1..];
        if |steps| > 1 {
          NoConnectsAfterFirst(d);
        } else {
          assert steps[1..] == [];
        }
      }
    }
  }

  lemma NoConnectsAfterFirst(d: Discovered)
    requires |React(d)| > 1
    ensures Connects(React(d)[1..]) == 0
  {
    var rest := React(d)[1..];
    if d.streamOk {
      var s := [OpenStream(d.event.peer, Liveness), StartWriter(d.event), StartReader(d.event)];
      assert rest == s;
      assert Connects(s[..1]) == 0 by { assert s[..1][..0] == []; }
      assert s[..2][..1] == s[..1];
      assert Connects(s[..2]) == 0;
      assert s[..|s| - 1] == s[..2];
    } else {
      assert rest == [OpenStream(d.event.peer, Liveness)];
      assert rest[..0] == [];
    }
  }

  // -------------------------------------------------------------------
  // writeData

  /** The liveness line sent to a peer. */
  function HelloMessage(source: string, addr: Multiaddr): (msg: string)
    ensures msg == source + ": Hello from " + addr + "\n"
    ensures |msg| > 0 && msg[|msg| - 1] == '\n'
    ensures '\n' !in source && '\n' !in addr ==> '\n' !in msg[..|msg| - 1]
  {
    var msg := source + ": Hello from " + addr + "\n";
    assert msg[..|msg| - 1] == source + ": Hello from " + addr;
    msg
  }

  /** The transport's answers to one iteration: to `WriteString` and to the
      `Flush` that follows it. */
  datatype WriteAttempt = WriteAttempt(writeFailed: bool, flushFailed: bool)

  datatype WriteExit = WriteError | FlushError

  /** What the writer did: the messages flushed to the peer, and why it
      stopped, if it did. */
  datatype WriterOutcome = WriterOutcome(delivered: seq<string>, exit: Option<WriteExit>)

  function WriterRun(msg: string, attempts: seq<WriteAttempt>): WriterOutcome
  {
    if attempts == [] then WriterOutcome([], None)
    else if attempts[0].writeFailed then WriterOutcome([], Some(WriteError))
    else if attempts[0].flushFailed then WriterOutcome([], Some(FlushError))
    else
      var rest := WriterRun(msg, attempts[1..]);
      WriterOutcome([msg] + rest.delivered, rest.exit)
  }

  /** One iteration of the writer, seen from iteration `i` on. */
  lemma WriterRunAt(msg: string, attempts: seq<WriteAttempt>, i: nat)
    requires i < |attempts|
    ensures attempts[i].writeFailed ==> WriterRun(msg, attempts[i..]) == WriterOutcome([], Some(WriteError))
    ensures !attempts[i].writeFailed && attempts[i].flushFailed ==>
      WriterRun(msg, attempts[i..]) == WriterOutcome([], Some(FlushError))
    ensures !attempts[i].writeFailed && !attempts[i].flushFailed ==>
      WriterRun(msg, attempts[i..]) ==
        WriterOutcome([msg] + WriterRun(msg, attempts[i + 1..]).delivered, WriterRun(msg, attempts[i + 1..]).exit)
  {
    assert attempts[i..][0] == attempts[i];
    assert attempts[i..][1..] == attempts[i + 1..];
  }

  /** An iteration in which the write or the flush fails. */
  predicate Fails(a: WriteAttempt)
  {
    a.writeFailed || a.flushFailed
  }

  /** The writer sends the same message on every iteration up to the first
      failure and stops there, naming the call that failed; it stops only
      on a failure, and without one every iteration delivers. */
  lemma {:induction false} WriterRunSpec(msg: string, attempts: seq<WriteAttempt>)
    ensures var o := WriterRun(msg, attempts);
      && (forall i :: 0 <= i < |o.delivered| ==> o.delivered[i] == msg)
      && |o.delivered| <= |attempts|
      && (forall i :: 0 <= i < |o.delivered| ==> !Fails(attempts[i]))
      && (o.exit.None? <==> forall i :: 0 <= i < |attempts| ==> !Fails(attempts[i]))
      && (o.exit.Some? ==> Fails(attempts[|o.delivered|]))
      && (o.exit.None? ==> |o.delivered| == |attempts|)
      && (o.exit == Some(WriteError) ==> attempts[|o.delivered|].writeFailed)
      && (o.exit == Some(FlushError) ==>
            !attempts[|o.delivered|].writeFailed && attempts[|o.delivered|].flushFailed)
  {
    if attempts != [] && !Fails(attempts[0]) {
      WriterRunSpec(msg, attempts[1..]);
      var o := WriterRun(msg, attempts);
      var r := WriterRun(msg, attempts[1..]);
      assert o.delivered == [msg] + r.delivered;
      forall i | 0 <= i < |o.delivered|
        ensures !Fails(attempts[i])
      {
        if i > 0 { assert attempts[i] == attempts[1..][i - 1]; }
      }
      if o.exit.None? {
        forall i | 0 <= i < |attempts|
          ensures !Fails(attempts[i])
        {
          if i > 0 { assert attempts[i] == attempts[1..][i - 1]; }
        }
      }
    }
  }

  // -------------------------------------------------------------------
  // readData

  /** One `ReadString('\n')` call: the string returned and whether an error
      came with it. */
  datatype LineRead = LineRead(text: string, failed: bool)

  datatype ReadExit = ReadError | EmptyRead

  /** What the reader did: the lines echoed to the console, and why it
      stopped, if it did. */
  datatype ReaderOutcome = ReaderOutcome(echoed: seq<string>, exit: Option<ReadExit>)

  function ReaderRun(lines: seq<LineRead>): ReaderOutcome
  {
    if lines == [] then ReaderOutcome([], None)
    else if lines[0].failed then ReaderOutcome([], Some(ReadError))
    else if lines[0].text == "" then ReaderOutcome([], Some(EmptyRead))
    else
      var rest := ReaderRun(lines[1..]);
      ReaderOutcome((if lines[0].text != "\n" then [lines[0].text] else []) + rest.echoed, rest.exit)
  }

  /** One iteration of the reader, seen from line `i` on. */
  lemma ReaderRunAt(lines: seq<LineRead>, i: nat)
    requires i < |lines|
    ensures lines[i].failed ==> ReaderRun(lines[i..]) == ReaderOutcome([], Some(ReadError))
    ensures !lines[i].failed && lines[i].text == "" ==> ReaderRun(lines[i..]) == ReaderOutcome([], Some(EmptyRead))
    ensures !lines[i].failed && lines[i].text != "" ==>
      ReaderRun(lines[i..]) ==
        ReaderOutcome((if lines[i].text != "\n" then [lines[i].text] else []) + ReaderRun(lines[i + 1..]).echoed,
                      ReaderRun(lines[i + 1..]).exit)
  {
    assert lines[i..][0] == lines[i];
    assert lines[i..][1..] == lines[i + 1..];
  }

  /** The strings of `lines` to echo: all but a lone newline. */
  function Shown(lines: seq<LineRead>): seq<string>
  {
    if lines == [] then []
    else (if lines[0].text != "\n" then [lines[0].text] else []) + Shown(lines[1..])
  }

  /** The buffered reader's contract: a read without error returns a string
      that ends with the delimiter. */
  predicate DelimitedWhenOk(lines: seq<LineRead>)
  {
    forall i :: 0 <= i < |lines| ==> !lines[i].failed ==> |lines[i].text| > 0 && lines[i].text[|lines[i].text| - 1] == '\n'
  }

  /** The index of the first failed read, or |lines| when none fails. */
  function FirstFailure(lines: seq<LineRead>): (f: nat)
    ensures f <= |lines|
    ensures f < |lines| ==> lines[f].failed
    ensures forall i :: 0 <= i < f ==> !lines[i].failed
  {
    if lines == [] then 0 else if lines[0].failed then 0 else 1 + FirstFailure(lines[1..])
  }

  lemma DelimitedTail(lines: seq<LineRead>)
    requires |lines| > 0 && DelimitedWhenOk(lines)
    ensures DelimitedWhenOk(lines[1..])
  {
    forall i | 0 <= i < |lines| - 1
      ensures !lines[1..][i].failed ==> |lines[1..][i].text| > 0 && lines[1..][i].text[|lines[1..][i].text| - 1] == '\n'
    {
      assert lines[1..][i] == lines[i + 1];
    }
  }

  /** The lines before the first failure, after a good first line, are
      that line followed by the lines before the first failure of the
      rest. */
  lemma ShownBeforeFailure(lines: seq<LineRead>)
    requires |lines| > 0 && !lines[0].failed
    ensures Shown(lines[..FirstFailure(lines)]) ==
      (if lines[0].text != "\n" then [lines[0].text] else []) + Shown(lines[1..][..FirstFailure(lines[1..])])
  {
    var f := FirstFailure(lines);
    var pre := lines[..f];
    assert pre[0] == lines[0];
    assert pre[1..] == lines[1..][..f - 1];
  }

  /** Under the buffered reader's contract the empty-string exit is never
      taken: the reader echoes every line but a lone newline up to the first
      read error, and stops exactly there. */
  lemma {:induction false} ReaderRunSpec(lines: seq<LineRead>)
    requires DelimitedWhenOk(lines)
    ensures var o := ReaderRun(lines); var f := FirstFailure(lines);
      && o.echoed == Shown(lines[..f])
      && (o.exit.Some? <==> f < |lines|)
      && o.exit != Some(EmptyRead)
  {
    if lines == [] {
      assert lines[..0] == [];
    } else if lines[0].failed {
      assert lines[..FirstFailure(lines)] == [];
    } else {
      assert lines[0].text != "";
      DelimitedTail(lines);
      ReaderRunSpec(lines[1..]);
      ShownBeforeFailure(lines);
    }
  }

  /** What the writer sends, the reader at the other end echoes: a
      liveness line is one newline-terminated string, never a lone
      newline. The line reaches the reader as a single read only when
      neither `source` nor `addr` holds a newline (the third ensures of
      `HelloMessage`); otherwise the reader sees it as several lines. */
  lemma HelloIsEchoed(source: string, addr: Multiaddr, rest: seq<LineRead>)
    ensures ReaderRun([LineRead(HelloMessage(source, addr), false)] + rest).echoed ==
      [HelloMessage(source, addr)] + ReaderRun(rest).echoed
  {
    var msg := HelloMessage(source, addr);
    var all := [LineRead(msg, false)] + rest;
    assert all[1..] == rest;
    assert msg != "\n" by {
      assert |msg| >= |": Hello from \n"|;
    }
  }

}
