/** The log file tailer: framing one poll of a file into lines (src/ingestion.rs, `start_monitor_loop`). */
module FileTail {
  import opened LineSplitting

  const MAX_LINE_SIZE := 65536
  const BUFFER_SIZE := 131072

  // ---------------------------------------------------------------- specification

  /** The lines handed on so far and the bytes kept for the next read. */
  datatype Frame = Frame(lines: seq<Bytes>, residue: Bytes)

  /** One buffer load: its complete lines, and its unfinished line unless that is too long. */
  function Cut(s: Bytes): Frame {
    Frame(Lines(s), if |Tail(s)| >= MAX_LINE_SIZE then [] else Tail(s))
  }

  function Feed(f: Frame, chunk: Bytes): Frame {
    var cut := Cut(f.residue + chunk);
    Frame(f.lines + cut.lines, cut.residue)
  }

  function FeedAll(chunks: seq<Bytes>): Frame {
    if chunks == [] then Frame([], []) else Feed(FeedAll(chunks[..|chunks| - 1]), chunks[|chunks| - 1])
  }

  function Span(s: Bytes, from: nat, to: nat): Bytes {
    if from <= to <= |s| then s[from..to] else []
  }

  predicate IsSuffix(a: Bytes, b: Bytes) {
    |a| <= |b| && b[|b| - |a|..] == a
  }

  /** One candidate a line, in order: the line itself if it is short, some suffix of it if it is long. */
  ghost predicate Faithful(candidates: seq<Bytes>, lines: seq<Bytes>) {
    && |candidates| == |lines|
    && forall i :: 0 <= i < |lines| ==>
         IsSuffix(candidates[i], lines[i]) && (|lines[i]| < MAX_LINE_SIZE ==> candidates[i] == lines[i])
  }

  /** The residue against the true unfinished line: equal while that is short, a suffix of it always. */
  ghost predicate ResidueOk(residue: Bytes, tail: Bytes) {
    && |residue| < MAX_LINE_SIZE
    && NewlineFree(residue)
    && IsSuffix(residue, tail)
    && (|tail| < MAX_LINE_SIZE ==> residue == tail)
  }

  lemma SuffixThrough(r: Bytes, t: Bytes, c: Bytes)
    requires IsSuffix(r, t)
    ensures IsSuffix(r + c, t + c)
  {
  }

  lemma CutFaithful(residue: Bytes, tail: Bytes, chunk: Bytes)
    requires ResidueOk(residue, tail) && NewlineFree(tail)
    ensures Faithful(Lines(residue + chunk), Lines(tail + chunk))
  {
    LinesBehindPrefix(tail, chunk);
    LinesBehindPrefix(residue, chunk);
    if Lines(chunk) != [] {
      SuffixThrough(residue, tail, Lines(chunk)[0]);
    }
  }

  lemma CutResidue(residue: Bytes, tail: Bytes, chunk: Bytes)
    requires ResidueOk(residue, tail) && NewlineFree(tail)
    ensures ResidueOk(Cut(residue + chunk).residue, Tail(tail + chunk))
  {
    LinesBehindPrefix(tail, chunk);
    LinesBehindPrefix(residue, chunk);
    SuffixThrough(residue, tail, chunk);
  }

  lemma FaithfulAppend(a: seq<Bytes>, b: seq<Bytes>, c: seq<Bytes>, d: seq<Bytes>)
    requires Faithful(a, b) && Faithful(c, d)
    ensures Faithful(a + c, b + d)
  {
  }

  /**
    However the bytes are cut into reads, every line shorter than 65536 bytes is handed on intact, once
    and in order, and each longer line yields one candidate, a suffix of it.
  */
  lemma {:induction false} FramesFaithfully(chunks: seq<Bytes>)
    ensures Faithful(FeedAll(chunks).lines, Lines(Concat(chunks)))
    ensures ResidueOk(FeedAll(chunks).residue, Tail(Concat(chunks)))
  {
    if chunks != [] {
      var front, last := chunks[..|chunks| - 1], chunks[|chunks| - 1];
      var f, whole := FeedAll(front), Concat(front);
      FramesFaithfully(front);
      LinesAppend(whole, last);
      CutFaithful(f.residue, Tail(whole), last);
      CutResidue(f.residue, Tail(whole), last);
      FaithfulAppend(f.lines, Lines(whole), Lines(f.residue + last), Lines(Tail(whole) + last));
    }
  }

  /** With no line of 65536 bytes or more, framing is exactly splitting, whatever the reads. */
  lemma FramesExactly(chunks: seq<Bytes>)
    requires forall l :: l in Lines(Concat(chunks)) ==> |l| < MAX_LINE_SIZE
    ensures FeedAll(chunks).lines == Lines(Concat(chunks))
  {
    FramesFaithfully(chunks);
    var lines := Lines(Concat(chunks));
    forall i | 0 <= i < |lines| ensures FeedAll(chunks).lines[i] == lines[i] {
      assert lines[i] in lines;
    }
  }

  // ---------------------------------------------------------------- exactly when no line is cut

  /** After `i` reads the unfinished line has 65536 bytes or more. */
  predicate LongAfter(chunks: seq<Bytes>, i: nat)
    requires i <= |chunks|
  {
    |Tail(Concat(chunks[..i]))| >= MAX_LINE_SIZE
  }

  ghost predicate NeverLong(chunks: seq<Bytes>) {
    forall i :: 0 <= i <= |chunks| ==> !LongAfter(chunks, i)
  }

  /** A line that is still unfinished with 65536 bytes or more is never completed, nor is any line after it. */
  ghost predicate FlushesLate(chunks: seq<Bytes>) {
    forall i :: 0 <= i <= |chunks| && LongAfter(chunks, i) ==> Completed(chunks, i) == Completed(chunks, |chunks|)
  }

  lemma LongInFront(chunks: seq<Bytes>, n: nat, i: nat)
    requires i <= n <= |chunks|
    ensures LongAfter(chunks[..n], i) <==> LongAfter(chunks, i)
  {
    CompletedInFront(chunks, n, i);
  }

  lemma NeverLongFront(chunks: seq<Bytes>)
    requires chunks != []
    ensures NeverLong(chunks) <==> NeverLong(chunks[..|chunks| - 1]) && !LongAfter(chunks, |chunks|)
  {
    var n := |chunks| - 1;
    forall i: nat | i <= n ensures LongAfter(chunks[..n], i) <==> LongAfter(chunks, i) {
      LongInFront(chunks, n, i);
    }
  }

  lemma StaysLate(chunks: seq<Bytes>)
    requires chunks != [] && FlushesLate(chunks)
    ensures FlushesLate(chunks[..|chunks| - 1])
    ensures NeverLong(chunks[..|chunks| - 1]) || Completed(chunks, |chunks| - 1) == Completed(chunks, |chunks|)
  {
    var n := |chunks| - 1;
    CompletedInFront(chunks, n, n);
    forall i | 0 <= i <= n && LongAfter(chunks[..n], i)
      ensures Completed(chunks[..n], i) == Completed(chunks, n) == Completed(chunks, n + 1)
    {
      CompletedInFront(chunks, n, i);
      LongInFront(chunks, n, i);
      CompletedGrows(chunks, i, n);
      CompletedGrows(chunks, n, n + 1);
    }
  }

  lemma BecomesLate(chunks: seq<Bytes>)
    requires chunks != [] && FlushesLate(chunks[..|chunks| - 1])
    requires NeverLong(chunks[..|chunks| - 1]) || Completed(chunks, |chunks| - 1) == Completed(chunks, |chunks|)
    ensures FlushesLate(chunks)
  {
    var n := |chunks| - 1;
    CompletedInFront(chunks, n, n);
    forall i | 0 <= i <= n && LongAfter(chunks, i) ensures Completed(chunks, i) == Completed(chunks, n + 1) {
      CompletedInFront(chunks, n, i);
      LongInFront(chunks, n, i);
    }
  }

  /** Until a line grows long nothing is flushed; afterwards bytes are missing until it is completed. */
  ghost predicate ResidueTells(chunks: seq<Bytes>) {
    var f, whole := FeedAll(chunks), Concat(chunks);
    && (NeverLong(chunks) ==> f.residue == Tail(whole))
    && (!NeverLong(chunks) && f.lines == Lines(whole) ==> |f.residue| < |Tail(whole)|)
  }

  lemma TellsOn(chunks: seq<Bytes>)
    requires chunks != [] && ResidueTells(chunks[..|chunks| - 1])
    ensures var front := chunks[..|chunks| - 1];
      FeedAll(chunks).lines == Lines(Concat(chunks)) <==>
      && FeedAll(front).lines == Lines(Concat(front))
      && (NeverLong(front) || |Lines(Concat(front))| == |Lines(Concat(chunks))|)
    ensures ResidueTells(chunks)
  {
    var front, last := chunks[..|chunks| - 1], chunks[|chunks| - 1];
    var f, t := FeedAll(front), Tail(Concat(front));
    FramesFaithfully(front);
    FramesFaithfully(chunks);
    NeverLongFront(chunks);
    LinesAppend(Concat(front), last);
    ShorterResidue(f.residue, t, last);
    SplitEqual(f.lines, Lines(f.residue + last), Lines(Concat(front)), Lines(t + last));
    assert chunks[..|chunks|] == chunks;
  }

  /**
    Framing is splitting if and only if no line is completed that was, or comes after one that was, still
    unfinished with 65536 bytes or more after some read.
  */
  lemma {:induction false} FlushedExactly(chunks: seq<Bytes>)
    ensures FeedAll(chunks).lines == Lines(Concat(chunks)) <==> FlushesLate(chunks)
    ensures ResidueTells(chunks)
  {
    if chunks == [] {
      assert chunks[..0] == chunks;
    } else {
      var front := chunks[..|chunks| - 1];
      FlushedExactly(front);
      TellsOn(chunks);
      if FlushesLate(chunks) { StaysLate(chunks); }
      if FlushesLate(front) && (NeverLong(front) || Completed(chunks, |front|) == Completed(chunks, |chunks|)) {
        BecomesLate(chunks);
      }
      assert chunks[..|chunks|] == chunks;
    }
  }

  /**
    The threshold is sharp: any line of exactly 65536 bytes arrives whole when it is read with its
    newline, and empty when its newline comes with the next read.
  */
  lemma FlushThresholdSharp(line: Bytes)
    requires NewlineFree(line) && |line| == MAX_LINE_SIZE
    ensures FeedAll([line + [NEWLINE]]).lines == [line]
    ensures FeedAll([line, [NEWLINE]]).lines == [[]]
  {
    FeedMore([], line + [NEWLINE]);
    FeedMore([], line);
    FeedMore([line], [NEWLINE]);
    assert [] + [line] == [line] && [line] + [[NEWLINE]] == [line, [NEWLINE]];
    assert [] + line == line && [] + (line + [NEWLINE]) == line + [NEWLINE];
    assert [] + [line + [NEWLINE]] == [line + [NEWLINE]] && [] + [NEWLINE] == [NEWLINE];
    TailOfNewlineFree(line);
    FirstNewlineAt(line + [NEWLINE], |line|);
    LineAlone(line);
    LineAlone([]);
  }

  lemma LineAlone(line: Bytes)
    requires NewlineFree(line)
    ensures Lines(line + [NEWLINE]) == [line] && Tail(line + [NEWLINE]) == []
  {
    var s := line + [NEWLINE];
    FirstNewlineAt(s, |line|);
    assert s[..|line|] == line && s[|line| + 1..] == [];
    TailOfNewlineFree([]);
  }

  // ---------------------------------------------------------------- the file

  /**
    An open file. A read returns between one byte and all that fits and is left, and nothing exactly
    when nothing fits or nothing is left; it may also fail, which `errors` counts. `content` is what the
    file holds at the end of the poll, so a file that grows meanwhile is covered.
  */
  class LogFile {
    const content: Bytes
    var position: nat
    ghost var errors: nat

    constructor (content: Bytes, position: nat)
      ensures this.content == content && this.position == position && errors == 0
    {
      this.content := content;
      this.position := position;
      errors := 0;
    }

    function Left(): nat
      reads this
    {
      if position <= |content| then |content| - position else 0
    }

    method Read(buffer: array<Byte>, from: nat) returns (ok: bool, n: nat)
      requires from <= buffer.Length
      modifies this, buffer
      ensures !ok ==> n == 0
      ensures errors == old(errors) + if ok then 0 else 1
      ensures n <= buffer.Length - from && n <= old(Left())
      ensures ok ==> (n == 0 <==> from == buffer.Length || old(Left()) == 0)
      ensures position == old(position) + n
      ensures n > 0 ==> position <= |content| && buffer[from..from + n] == content[old(position)..position]
      ensures buffer[..from] == old(buffer[..from])
    {
      ok, n := *, 0;
      var room := buffer.Length - from;
      if ok && room > 0 && Left() > 0 {
        n :| 0 < n <= room && n <= Left();
        var start := position;
        forall i | 0 <= i < n { buffer[from + i] := content[start + i]; }
        position := position + n;
      }
      if !ok {
        errors := errors + 1;
      }
    }
  }

  // ---------------------------------------------------------------- one poll

  /**
    Reads the file from its position to its end, or to the first read error, and returns the slices that
    reach the trim and evaluate step. `received` are the byte strings the reads returned; `failed` says
    that a read failed.
  */
  method Poll(file: LogFile) returns (candidates: seq<Bytes>, ghost received: seq<Bytes>, ghost failed: bool)
    modifies file
    ensures old(file.position) <= file.position
    ensures file.position > old(file.position) ==> file.position <= |file.content|
    ensures Concat(received) == Span(file.content, old(file.position), file.position)
    ensures !failed ==> file.position == old(file.position) + old(file.Left())
    ensures file.errors == old(file.errors) + if failed then 1 else 0
    ensures candidates == FeedAll(received).lines
    ensures Faithful(candidates, Lines(Concat(received)))
  {
    var buffer := new Byte[BUFFER_SIZE](_ => 0);
    var bufferLen: nat := 0;
    var more := true;
    candidates, received, failed := [], [], false;
    ghost var origin := file.position;
    while more
      invariant bufferLen < MAX_LINE_SIZE && buffer.Length == BUFFER_SIZE && fresh(buffer)
      invariant FeedAll(received) == Frame(candidates, buffer[..bufferLen])
      invariant origin <= file.position && (file.position > origin ==> file.position <= |file.content|)
      invariant file.position + file.Left() == origin + old(file.Left())
      invariant Concat(received) == Span(file.content, origin, file.position)
      invariant file.errors == old(file.errors) + if failed then 1 else 0
      invariant if more then !failed else !failed ==> file.Left() == 0
      decreases more, file.Left()
    {
      ghost var residue, before := buffer[..bufferLen], file.position;
      var found;
      found, bufferLen, more, failed := ReadOnce(file, buffer, bufferLen);
      if more {
        ghost var chunk := Span(file.content, before, file.position);
        FeedMore(received, chunk);
        received := received + [chunk];
        candidates := candidates + found;
      }
    }
    FramesFaithfully(received);
  }

  lemma FeedMore(chunks: seq<Bytes>, chunk: Bytes)
    ensures FeedAll(chunks + [chunk]) == Feed(FeedAll(chunks), chunk)
    ensures Concat(chunks + [chunk]) == Concat(chunks) + chunk
  {
    assert (chunks + [chunk])[..|chunks|] == chunks;
  }

  /**
    One turn of the read loop. More than 65536 bytes of the buffer are free, so a read of nothing means
    the end of the file: the loop goes on exactly if bytes were left and the read did not fail.
  */
  method ReadOnce(file: LogFile, buffer: array<Byte>, bufferLen: nat)
    returns (found: seq<Bytes>, kept: nat, more: bool, ghost failed: bool)
    requires buffer.Length == BUFFER_SIZE && bufferLen < MAX_LINE_SIZE
    modifies file, buffer
    ensures kept < MAX_LINE_SIZE && old(file.position) <= file.position
    ensures file.position + file.Left() == old(file.position + file.Left())
    ensures file.errors == old(file.errors) + if failed then 1 else 0
    ensures more <==> !failed && old(file.Left()) > 0
    ensures more ==>
      && old(file.position) < file.position <= |file.content|
      && var chunk := file.content[old(file.position)..file.position];
         Frame(found, buffer[..kept]) == Cut(old(buffer[..bufferLen]) + chunk)
    ensures !more ==> file.position == old(file.position)
    ensures !more ==> kept == bufferLen && buffer[..kept] == old(buffer[..bufferLen])
  {
    found, kept, more := [], bufferLen, false;
    var ok, n := file.Read(buffer, bufferLen);
    failed := !ok;
    if ok && n > 0 {
      more := true;
      assert buffer[..bufferLen + n] == old(buffer[..bufferLen]) + file.content[old(file.position)..file.position];
      var start;
      found, start := Scan(buffer[..bufferLen + n]);
      kept := Compact(buffer, start, bufferLen + n);
    }
  }

  /** Moves the unfinished line to the front of the buffer, or drops it if it is too long. */
  method Compact(buffer: array<Byte>, start: nat, bufferLen: nat) returns (kept: nat)
    requires start <= bufferLen <= buffer.Length
    modifies buffer
    ensures kept <= buffer.Length
    ensures buffer[..kept] == if bufferLen - start >= MAX_LINE_SIZE then [] else old(buffer[start..bufferLen])
  {
    kept := 0;
    if start < bufferLen {
      var remainder := bufferLen - start;
      if remainder < MAX_LINE_SIZE {
        forall i | 0 <= i < remainder { buffer[i] := buffer[start + i]; }
        kept := remainder;
      }
    }
  }
}
