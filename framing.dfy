/** Line framing of the full-sync stream: the sender appends a newline to
    every JSON document it writes, and the receiver's line scanner splits
    the byte stream back into lines (bufio's ScanLines rule: split at each
    newline, drop one carriage return before it, and return a final
    unterminated line at end of input). */
module Framing {
  import opened Wrappers
  import opened Types

  /** One written unit: a payload followed by a newline. */
  function Frame(payload: Bytes): (f: Bytes)
    ensures |f| == |payload| + 1 && f[|payload|] == Newline && f[..|payload|] == payload
  {
    payload + [Newline]
  }

  /** The stream bytes produced by writing `frames` in order. */
  function Join(frames: seq<Bytes>): Bytes
  {
    if frames == [] then [] else frames[0] + Join(frames[1..])
  }

  /** The frames of `payloads`, one per payload. */
  function Framed(payloads: seq<Bytes>): (fs: seq<Bytes>)
    ensures |fs| == |payloads|
    ensures forall i :: 0 <= i < |fs| ==> fs[i] == Frame(payloads[i])
  {
    seq(|payloads|, i requires 0 <= i < |payloads| => Frame(payloads[i]))
  }

  /** The index of the first newline of `b`, if any. */
  function FirstNewline(b: Bytes): (r: Option<nat>)
    ensures r.Some? ==> r.value < |b| && b[r.value] == Newline && Newline !in b[..r.value]
    ensures r.None? ==> Newline !in b
  {
    if b == [] then None
    else if b[0] == Newline then Some(0)
    else match FirstNewline(b[1..])
      case None => None
      case Some(i) =>
        assert b[..i + 1] == [b[0]] + b[1..][..i];
        Some(i + 1)
  }

  /** A line without its trailing carriage return, if it has one. */
  function DropCR(line: Bytes): (r: Bytes)
    ensures r == line || (|line| > 0 && line[|line| - 1] == CarriageReturn && r == line[..|line| - 1])
  {
    if |line| > 0 && line[|line| - 1] == CarriageReturn then line[..|line| - 1] else line
  }

  /** The tokens a line scanner yields for the whole of `b`. */
  function ScanLines(b: Bytes): seq<Bytes>
    decreases |b|
  {
    if b == [] then []
    else match FirstNewline(b)
      case None => [DropCR(b)]
      case Some(i) => [DropCR(b[..i])] + ScanLines(b[i + 1..])
  }

  /** A payload that survives line framing unchanged: no newline in it and
      no carriage return at its end. A JSON document produced by a standard
      encoder is of this form. */
  predicate Clean(payload: Bytes)
  {
    Newline !in payload && (|payload| == 0 || payload[|payload| - 1] != CarriageReturn)
  }

  /** Reading back what was written: scanning the framed payloads yields
      the payloads, one per line, in order. */
  lemma {:induction false} ScanFramed(payloads: seq<Bytes>)
    requires forall i :: 0 <= i < |payloads| ==> Clean(payloads[i])
    ensures ScanLines(Join(Framed(payloads))) == payloads
  {
    if payloads != [] {
      var p := payloads[0];
      var fs := Framed(payloads);
      assert fs[1..] == Framed(payloads[1..]);
      var rest := Join(fs[1..]);
      var b := Join(fs);
      assert b == p + [Newline] + rest;
      assert b[..|p|] == p;
      FirstNewlineAfter(p, rest);
      assert b[|p| + 1..] == rest;
      ScanFramed(payloads[1..]);
    }
  }

  lemma {:induction false} FirstNewlineAfter(p: Bytes, rest: Bytes)
    requires Newline !in p
    ensures FirstNewline(p + [Newline] + rest) == Some(|p|)
  {
    if p != [] {
      assert (p + [Newline] + rest)[1..] == p[1..] + [Newline] + rest;
      FirstNewlineAfter(p[1..], rest);
    }
  }

}
