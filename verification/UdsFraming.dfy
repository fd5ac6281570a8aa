/** Framing of one client connection of the socket server (src/socket.rs, the read loop of `run_uds_server`). */
module UdsFraming {
  import opened Wrappers
  import opened LineSplitting

  const READ_SIZE := 1024
  const BUFFER_LIMIT := 65536

  // ---------------------------------------------------------------- specification

  /** The lines evaluated so far, the bytes kept, and whether the connection is still open. */
  datatype Session = Session(lines: seq<Bytes>, buffer: Bytes, open: bool)

  function Receive(s: Session, chunk: Bytes): Session {
    if !s.open then s
    else if |s.buffer + chunk| > BUFFER_LIMIT then Session(s.lines, [], false)
    else Session(s.lines + Lines(s.buffer + chunk), Tail(s.buffer + chunk), true)
  }

  function ReceiveFrom(s: Session, chunks: seq<Bytes>): Session {
    if chunks == [] then s else Receive(ReceiveFrom(s, chunks[..|chunks| - 1]), chunks[|chunks| - 1])
  }

  function ReceiveAll(chunks: seq<Bytes>): Session {
    ReceiveFrom(Session([], [], true), chunks)
  }

  /** Reads as the loop makes them: at least one byte, at most 1024. */
  ghost predicate AreReads(chunks: seq<Bytes>) {
    forall i :: 0 <= i < |chunks| ==> 1 <= |chunks[i]| <= READ_SIZE
  }

  // ---------------------------------------------------------------- the code

  datatype ReadOutcome = Data(chunk: Bytes) | EndOfStream | WouldBlock | ReadFailed

  datatype Connection = Connection(buffer: Bytes, containerId: Option<string>)

  /** The reads up to the first outcome that is not data. */
  function DataOf(outcomes: seq<ReadOutcome>): seq<Bytes> {
    if outcomes == [] || !outcomes[0].Data? then [] else [outcomes[0].chunk] + DataOf(outcomes[1..])
  }

  predicate Hangs(outcomes: seq<ReadOutcome>) {
    var n := |DataOf(outcomes)|;
    n < |outcomes| && (outcomes[n].EndOfStream? || outcomes[n].ReadFailed?)
  }

  /**
    Reads a ready connection until it would block, ends, fails or overflows. `outcomes` is what the
    reads return, the last one being followed by "would block".
  */
  method ReadConnection(conn: Connection, outcomes: seq<ReadOutcome>)
    returns (after: Connection, evaluated: seq<Bytes>, remove: bool)
    ensures var n, end := |DataOf(outcomes)|, ReceiveFrom(Session([], conn.buffer, true), DataOf(outcomes));
      && n <= |outcomes| && (forall i :: 0 <= i < n ==> outcomes[i].Data?)
      && (n < |outcomes| ==> !outcomes[n].Data?)
      && DataOf(outcomes) == seq(n, i requires 0 <= i < n => outcomes[i].chunk)
      && evaluated == end.lines
      && after == conn.(buffer := end.buffer)
      && (remove <==> !end.open || (n < |outcomes| && (outcomes[n].EndOfStream? || outcomes[n].ReadFailed?)))
    ensures remove <==> !ReceiveFrom(Session([], conn.buffer, true), DataOf(outcomes)).open || Hangs(outcomes)
  {
    after, evaluated, remove := conn, [], false;
    ghost var n := WhereReadingStops(outcomes);
    ghost var begin, taken: seq<Bytes> := Session([], conn.buffer, true), [];
    var i := 0;
    while i < |outcomes| && outcomes[i].Data?
      invariant i <= |outcomes| && forall j :: 0 <= j < i ==> outcomes[j].Data?
      invariant DataOf(outcomes) == taken + DataOf(outcomes[i..])
      invariant ReceiveFrom(begin, taken) == Session(evaluated, after.buffer, true)
      invariant after.containerId == conn.containerId
    {
      var chunk := outcomes[i].chunk;
      NextData(outcomes, i);
      ReceiveMore(begin, taken, chunk);
      Regroup(taken, [chunk], DataOf(outcomes[i + 1..]));
      var buffer := after.buffer + chunk;
      if |buffer| > BUFFER_LIMIT {
        after, remove := after.(buffer := []), true;
        StaysClosed(begin, taken + [chunk], DataOf(outcomes[i + 1..]));
        return;
      }
      var found, start := Scan(buffer);
      evaluated, after := evaluated + found, after.(buffer := buffer[start..]);
      taken, i := taken + [chunk], i + 1;
    }
    DataCount(outcomes, i);
    assert taken == DataOf(outcomes) && i == n;
    remove := i < |outcomes| && !outcomes[i].WouldBlock?;
  }

  lemma NextData(outcomes: seq<ReadOutcome>, i: nat)
    requires i < |outcomes| && outcomes[i].Data?
    ensures DataOf(outcomes[i..]) == [outcomes[i].chunk] + DataOf(outcomes[i + 1..])
  {
    assert outcomes[i..][1..] == outcomes[i + 1..];
  }

  lemma {:induction false} DataCount(outcomes: seq<ReadOutcome>, n: nat)
    requires n <= |outcomes| && (forall i :: 0 <= i < n ==> outcomes[i].Data?)
    requires n == |outcomes| || !outcomes[n].Data?
    ensures DataOf(outcomes[n..]) == []
    ensures DataOf(outcomes) == seq(n, i requires 0 <= i < n => outcomes[i].chunk)
  {
    if n > 0 {
      DataCount(outcomes[1..], n - 1);
      assert outcomes[1..][n - 1..] == outcomes[n..];
    }
  }

  /**
    Reading takes the chunks in front of the first outcome that is not data; the connection hangs up
    exactly if that is the end of the stream or an error.
  */
  lemma {:induction false} WhereReadingStops(outcomes: seq<ReadOutcome>) returns (n: nat)
    ensures n <= |outcomes| && (forall i :: 0 <= i < n ==> outcomes[i].Data?)
    ensures n < |outcomes| ==> !outcomes[n].Data?
    ensures DataOf(outcomes) == seq(n, i requires 0 <= i < n => outcomes[i].chunk)
    ensures Hangs(outcomes) <==> n < |outcomes| && (outcomes[n].EndOfStream? || outcomes[n].ReadFailed?)
  {
    n := 0;
    while n < |outcomes| && outcomes[n].Data?
      invariant n <= |outcomes| && forall i :: 0 <= i < n ==> outcomes[i].Data?
    {
      n := n + 1;
    }
    DataCount(outcomes, n);
  }

  lemma ReceiveMore(s: Session, chunks: seq<Bytes>, chunk: Bytes)
    ensures ReceiveFrom(s, chunks + [chunk]) == Receive(ReceiveFrom(s, chunks), chunk)
  {
    assert (chunks + [chunk])[..|chunks|] == chunks;
  }

  /** Receiving can be interrupted and taken up again. */
  lemma {:induction false} ReceiveOn(s: Session, a: seq<Bytes>, b: seq<Bytes>)
    ensures ReceiveFrom(s, a + b) == ReceiveFrom(ReceiveFrom(s, a), b)
  {
    if b == [] {
      assert a + b == a;
    } else {
      var n := |b| - 1;
      ReceiveOn(s, a, b[..n]);
      ReceiveMore(s, a + b[..n], b[n]);
      assert (a + b[..n]) + [b[n]] == a + b;
    }
  }

  /** The lines of earlier reads stay in front of those of later ones. */
  lemma {:induction false} ReceiveBehind(lines: seq<Bytes>, buffer: Bytes, chunks: seq<Bytes>)
    ensures var end := ReceiveFrom(Session([], buffer, true), chunks);
      ReceiveFrom(Session(lines, buffer, true), chunks) == end.(lines := lines + end.lines)
  {
    if chunks == [] {
      assert lines + [] == lines;
    } else {
      var n := |chunks| - 1;
      var end := ReceiveFrom(Session([], buffer, true), chunks[..n]);
      ReceiveBehind(lines, buffer, chunks[..n]);
      Regroup(lines, end.lines, Lines(end.buffer + chunks[n]));
    }
  }

  lemma {:induction false} StaysClosed(s: Session, chunks: seq<Bytes>, more: seq<Bytes>)
    requires !ReceiveFrom(s, chunks).open
    ensures ReceiveFrom(s, chunks + more) == ReceiveFrom(s, chunks)
  {
    if more == [] {
      assert chunks + more == chunks;
    } else {
      var n := |more| - 1;
      StaysClosed(s, chunks, more[..n]);
      ReceiveMore(s, chunks + more[..n], more[n]);
      assert (chunks + more[..n]) + [more[n]] == chunks + more;
    }
  }

  // ---------------------------------------------------------------- what a session delivers

  /**
    While a connection is open it has delivered exactly the lines received; after an overflow it has
    delivered the lines completed before the read that overflowed.
  */
  lemma {:induction false} DeliversPrefix(chunks: seq<Bytes>)
    ensures var s := ReceiveAll(chunks);
      && s.lines <= Lines(Concat(chunks))
      && (s.open ==> s.lines == Lines(Concat(chunks)) && s.buffer == Tail(Concat(chunks)))
      && (forall l :: l in s.lines ==> |l| < BUFFER_LIMIT)
      && |s.buffer| <= BUFFER_LIMIT
  {
    if chunks != [] {
      var front, last := chunks[..|chunks| - 1], chunks[|chunks| - 1];
      DeliversPrefix(front);
      LinesAppend(Concat(front), last);
      LinesFit(ReceiveAll(front).buffer + last);
    }
  }

  lemma {:induction false} LinesFit(s: Bytes)
    ensures forall l :: l in Lines(s) ==> |l| < |s|
  {
    var n := FirstNewline(s);
    if n < |s| {
      LinesFit(s[n + 1..]);
    }
  }

  /** The buffer never grows beyond the limit and one read. */
  lemma BufferBounded(chunks: seq<Bytes>, chunk: Bytes)
    requires |chunk| <= READ_SIZE
    ensures |ReceiveAll(chunks).buffer + chunk| <= BUFFER_LIMIT + READ_SIZE
  {
    DeliversPrefix(chunks);
  }

  // ---------------------------------------------------------------- when a connection overflows

  /** The read after the first `p` bytes of the stream can be large enough to overflow the buffer. */
  predicate Trips(stream: Bytes, p: nat)
    requires p <= |stream|
  {
    |Tail(stream[..p])| + (if |stream| - p < READ_SIZE then |stream| - p else READ_SIZE) > BUFFER_LIMIT
  }

  lemma {:induction false} ClosedMeansTrips(chunks: seq<Bytes>) returns (p: nat)
    requires AreReads(chunks) && !ReceiveAll(chunks).open
    ensures p <= |Concat(chunks)| && Trips(Concat(chunks), p)
  {
    var front, last := chunks[..|chunks| - 1], chunks[|chunks| - 1];
    if ReceiveAll(front).open {
      p := |Concat(front)|;
      DeliversPrefix(front);
      assert Concat(chunks)[..p] == Concat(front);
    } else {
      p := ClosedMeansTrips(front);
      assert Concat(chunks)[..p] == Concat(front)[..p];
    }
  }

  /** Some reads that deliver `s`. */
  lemma {:induction false} SomeReads(s: Bytes) returns (chunks: seq<Bytes>)
    ensures AreReads(chunks) && Concat(chunks) == s
  {
    if s == [] {
      chunks := [];
    } else {
      var n := if |s| < READ_SIZE then 0 else |s| - READ_SIZE;
      var front := SomeReads(s[..n]);
      chunks := front + [s[n..]];
      ConcatAppend(front, s[n..]);
    }
  }

  lemma {:induction false} ConcatBoth(a: seq<Bytes>, b: seq<Bytes>)
    ensures Concat(a + b) == Concat(a) + Concat(b)
  {
    if b == [] {
      assert a + b == a;
    } else {
      var n := |b| - 1;
      ConcatBoth(a, b[..n]);
      ConcatAppend(a + b[..n], b[n]);
      Regroup(a, b[..n], [b[n]]);
      assert b == b[..n] + [b[n]];
      Regroup(Concat(a), Concat(b[..n]), b[n]);
    }
  }

  lemma TripsMeansClosed(stream: Bytes, p: nat) returns (chunks: seq<Bytes>)
    requires p <= |stream| && Trips(stream, p)
    ensures AreReads(chunks) && Concat(chunks) == stream && !ReceiveAll(chunks).open
  {
    var n := if |stream| - p < READ_SIZE then |stream| else p + READ_SIZE;
    var before := SomeReads(stream[..p]);
    if n == p {
      DeliversPrefix(before);
      assert stream[..p] == stream;
      return before;
    }
    var rest := SomeReads(stream[n..]);
    var upTo := before + [stream[p..n]];
    OverflowHere(before, stream[p..n]);
    StaysClosed(Session([], [], true), upTo, rest);
    chunks := upTo + rest;
    ConcatAppend(before, stream[p..n]);
    ConcatBoth(upTo, rest);
    assert stream[..p] + stream[p..n] + stream[n..] == stream;
  }

  lemma OverflowHere(before: seq<Bytes>, chunk: Bytes)
    requires |Tail(Concat(before))| + |chunk| > BUFFER_LIMIT
    ensures !ReceiveAll(before + [chunk]).open
  {
    DeliversPrefix(before);
    ReceiveMore(Session([], [], true), before, chunk);
  }

  /** Exactly which streams some sequence of reads can disconnect. */
  lemma WhichStreamsOverflow(stream: Bytes)
    ensures (exists chunks :: AreReads(chunks) && Concat(chunks) == stream && !ReceiveAll(chunks).open)
       <==> (exists p: nat :: p <= |stream| && Trips(stream, p))
  {
    if chunks :| AreReads(chunks) && Concat(chunks) == stream && !ReceiveAll(chunks).open {
      var p := ClosedMeansTrips(chunks);
    }
    if p: nat :| p <= |stream| && Trips(stream, p) {
      var chunks := TripsMeansClosed(stream, p);
    }
  }

  // ---------------------------------------------------------------- lines of at most 64512 bytes

  const SAFE_LINE := 64512

  ghost predicate LinesSafe(stream: Bytes) {
    (forall l :: l in Lines(stream) ==> |l| <= SAFE_LINE) && |Tail(stream)| <= SAFE_LINE
  }

  lemma UnfinishedIsPartOfALine(a: Bytes, b: Bytes)
    ensures |Tail(a)| <= |Tail(a + b)| || exists l :: l in Lines(a + b) && |Tail(a)| <= |l|
  {
    LinesAppend(a, b);
    LinesBehindPrefix(Tail(a), b);
    if Lines(b) != [] {
      var l := Lines(Tail(a) + b)[0];
      assert l in Lines(Tail(a) + b);
      assert l in Lines(a + b);
    }
  }

  lemma SafeStreamsNeverTrip(stream: Bytes, p: nat)
    requires LinesSafe(stream) && p <= |stream|
    ensures !Trips(stream, p)
  {
    UnfinishedIsPartOfALine(stream[..p], stream[p..]);
    assert stream[..p] + stream[p..] == stream;
  }

  /** A stream whose lines have at most 64512 bytes is delivered whole, whatever the reads. */
  lemma SafeStreamsArrive(chunks: seq<Bytes>)
    requires AreReads(chunks) && LinesSafe(Concat(chunks))
    ensures ReceiveAll(chunks) == Session(Lines(Concat(chunks)), Tail(Concat(chunks)), true)
  {
    if !ReceiveAll(chunks).open {
      var p := ClosedMeansTrips(chunks);
      SafeStreamsNeverTrip(Concat(chunks), p);
    }
    DeliversPrefix(chunks);
  }

  /** One byte more is too much: a line of 64513 bytes followed by 1023 more can disconnect its sender. */
  lemma ThresholdSharp(line: Bytes, more: Bytes)
    requires NewlineFree(line) && |line| == SAFE_LINE + 1 && |more| == READ_SIZE - 1
    ensures exists chunks ::
      AreReads(chunks) && Concat(chunks) == line + [NEWLINE] + more && !ReceiveAll(chunks).open
  {
    var stream := line + [NEWLINE] + more;
    assert stream[..|line|] == line;
    TailOfNewlineFree(line);
    assert Trips(stream, |line|);
    var chunks := TripsMeansClosed(stream, |line|);
  }
}
