/** The event thread: chunk payloads to lines to the container cache (src/ingestion.rs, `start_monitor_loop`). */
module EventStream {
  import opened Wrappers
  import opened LineSplitting
  import opened HttpReader
  import opened ChunkSize
  import opened ChunkedBody

  const BUFFER_LIMIT := 65536

  /** An event line as the JSON parser reads it; blank and malformed lines read as nothing. */
  datatype Event = Started(id: string, name: Option<string>) | Died(id: string) | OtherAction

  type Parser = Bytes -> Option<Event>

  // ---------------------------------------------------------------- specification

  function Update(cache: map<string, string>, line: Bytes, parse: Parser): map<string, string> {
    match parse(line)
    case Some(Started(id, name)) => cache[id := if name.Some? then name.value else id]
    case Some(Died(id)) => cache - {id}
    case _ => cache
  }

  function Replay(cache: map<string, string>, lines: seq<Bytes>, parse: Parser): map<string, string> {
    if lines == [] then cache
    else Update(Replay(cache, lines[..|lines| - 1], parse), lines[|lines| - 1], parse)
  }

  datatype View = View(cache: map<string, string>, buffer: Bytes)

  /** One chunk: an overlong buffer is dropped whole, complete lines and all. */
  function Absorb(v: View, chunk: Bytes, parse: Parser): View {
    var s := if |v.buffer + chunk| > BUFFER_LIMIT then [] else v.buffer + chunk;
    View(Replay(v.cache, Lines(s), parse), Tail(s))
  }

  function AbsorbAll(v: View, chunks: seq<Bytes>, parse: Parser): View {
    if chunks == [] then v else Absorb(AbsorbAll(v, chunks[..|chunks| - 1], parse), chunks[|chunks| - 1], parse)
  }

  /**
    The view when the loop ends, or when it comes to the end of the stream: there each further read
    yields an empty line, which is skipped as a blank one, so the loop idles until the daemon stops.
  */
  datatype Followed = Followed(view: View, idles: bool)

  function Follow(s: Bytes, v: View, parse: Parser): Followed
    decreases |s|
  {
    var n := LineLength(s, |s|);
    var line, rest := s[..n], s[n..];
    var size := Trim(line);
    if s == [] then Followed(v, true)
    else if size == [] then Follow(rest, v, parse)
    else
      match ParseSize(size)
      case None => Followed(v, false)
      case Some(k) =>
        if k == 0 || k + 2 > |rest| then Followed(v, false)
        else Follow(rest[k + 2..], Absorb(v, rest[..k], parse), parse)
  }

  /** One turn of the loop, once its line is read. */
  lemma {:induction false} FollowAfterLine(s: Bytes, n: nat, v: View, parse: Parser)
    requires s != [] && n == LineLength(s, |s|)
    ensures var size, rest := Trim(s[..n]), s[n..];
      Follow(s, v, parse) ==
      if size == [] then Follow(rest, v, parse)
      else
        match ParseSize(size)
        case None => Followed(v, false)
        case Some(k) =>
          if k == 0 || k + 2 > |rest| then Followed(v, false)
          else Follow(rest[k..][2..], Absorb(v, rest[..k], parse), parse)
  {
    assert forall k: nat :: k + 2 <= |s[n..]| ==> s[n..][k..][2..] == s[n..][k + 2..];
  }

  // ---------------------------------------------------------------- the code

  class EventThread {
    var cache: map<string, string>
    var lineBuffer: Bytes
    const parse: Parser

    constructor (snapshot: map<string, string>, parse: Parser)
      ensures View(cache, lineBuffer) == View(snapshot, []) && this.parse == parse
    {
      this.cache, this.lineBuffer, this.parse := snapshot, [], parse;
    }

    method OnLine(line: Bytes)
      modifies this`cache
      ensures cache == Update(old(cache), line, parse)
      ensures match parse(line)
        case Some(Started(id, name)) => cache == old(cache)[id := if name.Some? then name.value else id]
        case Some(Died(id)) => cache == old(cache) - {id}
        case _ => cache == old(cache)
    {
      match parse(line) {
        case Some(Started(id, name)) => cache := cache[id := if name.Some? then name.value else id];
        case Some(Died(id)) => cache := cache - {id};
        case _ =>
      }
    }

    method OnChunk(chunk: Bytes)
      modifies this
      ensures View(cache, lineBuffer) == Absorb(old(View(cache, lineBuffer)), chunk, parse)
    {
      lineBuffer := lineBuffer + chunk;
      if |lineBuffer| > BUFFER_LIMIT {
        lineBuffer := [];
      }
      ghost var kept := lineBuffer;
      var found, start := Scan(lineBuffer);
      for i := 0 to |found|
        invariant cache == Replay(old(cache), found[..i], parse) && lineBuffer == kept
      {
        assert found[..i + 1][..i] == found[..i];
        OnLine(found[i]);
      }
      assert found[..|found|] == found;
      lineBuffer := lineBuffer[start..];
    }

    /** Decodes the response body chunk by chunk until it ends. */
    method Run(reader: Reader) returns (idles: bool)
      requires reader.Valid()
      modifies this, reader
      ensures Followed(View(cache, lineBuffer), idles)
           == Follow(old(reader.Contents()), old(View(cache, lineBuffer)), parse)
    {
      ghost var all, begin := reader.Contents(), View(cache, lineBuffer);
      while true
        invariant reader.Valid()
        invariant Follow(all, begin, parse) == Follow(reader.Contents(), View(cache, lineBuffer), parse)
        decreases |reader.Contents()|
      {
        ghost var s := reader.Contents();
        var line := reader.ReadLine(|reader.Contents()|);
        if line == [] {
          return true;
        }
        FollowAfterLine(s, |line|, View(cache, lineBuffer), parse);
        var size := Trim(line);
        if size == [] {
          continue;
        }
        var parsed := ParseSize(size);
        if parsed.None? || parsed.value == 0 {
          return false;
        }
        var ok, chunk := reader.ReadExact(parsed.value);
        if !ok {
          return false;
        }
        var ended, crlf := reader.ReadExact(2);
        if !ended {
          return false;
        }
        OnChunk(chunk);
      }
    }
  }

  // ---------------------------------------------------------------- what the cache holds

  /** The line is an event that says whether container `id` runs. */
  predicate IsAbout(line: Bytes, id: string, parse: Parser) {
    var e := parse(line);
    e.Some? && !e.value.OtherAction? && e.value.id == id
  }

  lemma ReplayLast(cache: map<string, string>, lines: seq<Bytes>, parse: Parser)
    requires lines != []
    ensures var n := |lines| - 1;
      Replay(cache, lines, parse) == Update(Replay(cache, lines[..n], parse), lines[n], parse)
  {
  }

  /** Lines that are not about a container leave its entry, or its absence, as it is. */
  lemma {:induction false} OthersLeaveAlone(cache: map<string, string>, lines: seq<Bytes>, id: string, parse: Parser)
    requires forall j :: 0 <= j < |lines| ==> !IsAbout(lines[j], id, parse)
    ensures var after := Replay(cache, lines, parse);
      (id in after <==> id in cache) && (id in cache ==> after[id] == cache[id])
    decreases |lines|
  {
    if lines != [] {
      OthersLeaveAlone(cache, lines[..|lines| - 1], id, parse);
      assert !IsAbout(lines[|lines| - 1], id, parse);
    }
  }

  /**
    The last event about a container decides: if it died it is not in the cache; if it started it is, under
    the name the event gives or else under its id.
  */
  lemma {:induction false} LastEventDecides(cache: map<string, string>, lines: seq<Bytes>, k: nat, id: string,
                                            parse: Parser)
    requires k < |lines| && IsAbout(lines[k], id, parse)
    requires forall j :: k < j < |lines| ==> !IsAbout(lines[j], id, parse)
    ensures var after := Replay(cache, lines, parse);
      match parse(lines[k]).value
      case Died(_) => id !in after
      case Started(_, None) => id in after && after[id] == id
      case Started(_, Some(name)) => id in after && after[id] == name
  {
    var front, rest := lines[..k + 1], lines[k + 1..];
    assert lines == front + rest && front[..k] == lines[..k];
    ReplayAppend(cache, front, rest, parse);
    ReplayLast(cache, front, parse);
    OthersLeaveAlone(Replay(cache, front, parse), rest, id, parse);
  }

  lemma {:induction false} ReplayAppend(cache: map<string, string>, a: seq<Bytes>, b: seq<Bytes>, parse: Parser)
    ensures Replay(cache, a + b, parse) == Replay(Replay(cache, a, parse), b, parse)
  {
    if b == [] {
      assert a + b == a;
    } else {
      var n := |b| - 1;
      ReplayAppend(cache, a, b[..n], parse);
      assert (a + b)[..|a + b| - 1] == a + b[..n];
    }
  }

  /** Chunk `i` and the unfinished line before it are too long for the buffer. */
  predicate Overflows(chunks: seq<Bytes>, i: nat)
    requires i < |chunks|
  {
    |Tail(Concat(chunks[..i]))| + |chunks[i]| > BUFFER_LIMIT
  }

  /** No chunk makes the unfinished line before it outgrow the buffer. */
  ghost predicate ChunksFit(chunks: seq<Bytes>) {
    forall i :: 0 <= i < |chunks| ==> !Overflows(chunks, i)
  }

  /** The lines handed to the parser so far, and the residue. */
  datatype Handed = Handed(lines: seq<Bytes>, residue: Bytes)

  function HandOn(h: Handed, chunk: Bytes): Handed {
    var s := if |h.residue + chunk| > BUFFER_LIMIT then [] else h.residue + chunk;
    Handed(h.lines + Lines(s), Tail(s))
  }

  function HandAll(chunks: seq<Bytes>): Handed {
    if chunks == [] then Handed([], []) else HandOn(HandAll(chunks[..|chunks| - 1]), chunks[|chunks| - 1])
  }

  /** The cache is always the replay of the lines handed on. */
  lemma {:induction false} CacheReplaysHanded(cache: map<string, string>, chunks: seq<Bytes>, parse: Parser)
    ensures AbsorbAll(View(cache, []), chunks, parse)
         == View(Replay(cache, HandAll(chunks).lines, parse), HandAll(chunks).residue)
  {
    if chunks != [] {
      var front, last := HandAll(chunks[..|chunks| - 1]), chunks[|chunks| - 1];
      CacheReplaysHanded(cache, chunks[..|chunks| - 1], parse);
      var s := if |front.residue + last| > BUFFER_LIMIT then [] else front.residue + last;
      ReplayAppend(cache, front.lines, Lines(s), parse);
    }
  }

  lemma OverflowInFront(chunks: seq<Bytes>, n: nat, i: nat)
    requires i < n <= |chunks|
    ensures Overflows(chunks[..n], i) <==> Overflows(chunks, i)
  {
    CompletedInFront(chunks, n, i);
  }

  lemma FitsFront(chunks: seq<Bytes>)
    requires chunks != []
    ensures ChunksFit(chunks) <==> ChunksFit(chunks[..|chunks| - 1]) && !Overflows(chunks, |chunks| - 1)
  {
    var n := |chunks| - 1;
    forall i: nat | i < n ensures Overflows(chunks[..n], i) <==> Overflows(chunks, i) {
      OverflowInFront(chunks, n, i);
    }
  }

  lemma {:induction false} FittingChunksHandAll(chunks: seq<Bytes>)
    requires ChunksFit(chunks)
    ensures HandAll(chunks) == Handed(Lines(Concat(chunks)), Tail(Concat(chunks)))
  {
    if chunks != [] {
      var front, last := chunks[..|chunks| - 1], chunks[|chunks| - 1];
      FitsFront(chunks);
      FittingChunksHandAll(front);
      LinesAppend(Concat(front), last);
    }
  }

  /**
    While residue and chunk fit in 65536 bytes, the cache is the replay of the lines of the whole
    payload, so it does not depend on where the chunks cut it.
  */
  lemma CacheIsReplay(cache: map<string, string>, chunks: seq<Bytes>, parse: Parser)
    requires ChunksFit(chunks)
    ensures AbsorbAll(View(cache, []), chunks, parse)
         == View(Replay(cache, Lines(Concat(chunks)), parse), Tail(Concat(chunks)))
  {
    CacheReplaysHanded(cache, chunks, parse);
    FittingChunksHandAll(chunks);
  }

  lemma CutsDoNotMatter(cache: map<string, string>, a: seq<Bytes>, b: seq<Bytes>, parse: Parser)
    requires ChunksFit(a) && ChunksFit(b) && Concat(a) == Concat(b)
    ensures AbsorbAll(View(cache, []), a, parse) == AbsorbAll(View(cache, []), b, parse)
  {
    CacheIsReplay(cache, a, parse);
    CacheIsReplay(cache, b, parse);
  }

  // ---------------------------------------------------------------- exactly when no event line is lost

  /** No line is completed by a chunk that overflows, or by any later one. */
  ghost predicate OverflowsLate(chunks: seq<Bytes>) {
    forall i :: 0 <= i < |chunks| && Overflows(chunks, i) ==> Completed(chunks, i) == Completed(chunks, |chunks|)
  }

  lemma {:induction false} StaysLate(chunks: seq<Bytes>)
    requires chunks != [] && OverflowsLate(chunks)
    ensures OverflowsLate(chunks[..|chunks| - 1])
    ensures ChunksFit(chunks) || Completed(chunks, |chunks| - 1) == Completed(chunks, |chunks|)
  {
    var n := |chunks| - 1;
    CompletedInFront(chunks, n, n);
    forall i | 0 <= i < n && Overflows(chunks[..n], i) ensures Completed(chunks[..n], i) == Completed(chunks[..n], n) {
      CompletedInFront(chunks, n, i);
      OverflowInFront(chunks, n, i);
      CompletedGrows(chunks, i, n);
      CompletedGrows(chunks, n, n + 1);
    }
    if !ChunksFit(chunks) {
      var i :| 0 <= i < |chunks| && Overflows(chunks, i);
      CompletedGrows(chunks, i, n);
      CompletedGrows(chunks, n, n + 1);
    }
  }

  lemma {:induction false} BecomesLate(chunks: seq<Bytes>)
    requires chunks != [] && OverflowsLate(chunks[..|chunks| - 1])
    requires ChunksFit(chunks) || Completed(chunks, |chunks| - 1) == Completed(chunks, |chunks|)
    ensures OverflowsLate(chunks)
  {
    var n := |chunks| - 1;
    CompletedInFront(chunks, n, n);
    forall i | 0 <= i < |chunks| && Overflows(chunks, i) ensures Completed(chunks, i) == Completed(chunks, n + 1) {
      assert !ChunksFit(chunks);
      if i < n {
        CompletedInFront(chunks, n, i);
        OverflowInFront(chunks, n, i);
      }
    }
  }

  ghost predicate HandedOk(chunks: seq<Bytes>) {
    var h, whole := HandAll(chunks), Concat(chunks);
    && NewlineFree(h.residue)
    && |h.lines| <= |Lines(whole)| && |h.residue| <= |Tail(whole)|
    && (!ChunksFit(chunks) && h.lines == Lines(whole) ==> |h.residue| < |Tail(whole)|)
  }

  /** One more chunk, when it and the residue fit: nothing is made good that was lost before. */
  lemma {:induction false} KeptChunk(chunks: seq<Bytes>)
    requires chunks != [] && HandedOk(chunks[..|chunks| - 1])
    requires |HandAll(chunks[..|chunks| - 1]).residue + chunks[|chunks| - 1]| <= BUFFER_LIMIT
    ensures HandedOk(chunks)
    ensures var front := chunks[..|chunks| - 1];
      HandAll(chunks).lines == Lines(Concat(chunks)) <==>
      && HandAll(front).lines == Lines(Concat(front))
      && (ChunksFit(chunks) || |Lines(Concat(front))| == |Lines(Concat(chunks))|)
  {
    var front, last := chunks[..|chunks| - 1], chunks[|chunks| - 1];
    var h, t := HandAll(front), Tail(Concat(front));
    FitsFront(chunks);
    if ChunksFit(front) { FittingChunksHandAll(front); }
    LinesAppend(Concat(front), last);
    ShorterResidue(h.residue, t, last);
    if HandAll(chunks).lines == Lines(Concat(chunks)) {
      SplitEqual(h.lines, Lines(h.residue + last), Lines(Concat(front)), Lines(t + last));
    }
  }

  lemma {:induction false} DroppedChunk(chunks: seq<Bytes>)
    requires chunks != [] && HandedOk(chunks[..|chunks| - 1])
    requires |HandAll(chunks[..|chunks| - 1]).residue + chunks[|chunks| - 1]| > BUFFER_LIMIT
    ensures !ChunksFit(chunks) && HandedOk(chunks)
    ensures var front := chunks[..|chunks| - 1];
      HandAll(chunks).lines == Lines(Concat(chunks)) <==>
      HandAll(front).lines == Lines(Concat(front)) && |Lines(Concat(front))| == |Lines(Concat(chunks))|
  {
    var front, last := chunks[..|chunks| - 1], chunks[|chunks| - 1];
    var h, t := HandAll(front), Tail(Concat(front));
    FitsFront(chunks);
    LinesAppend(Concat(front), last);
    ShorterResidue(h.residue, t, last);
    TailOfNewlineFree([]);
    if HandAll(chunks).lines == Lines(Concat(chunks)) {
      SplitEqual(h.lines, [], Lines(Concat(front)), Lines(t + last));
    }
  }

  lemma {:induction false} HandedExactly(chunks: seq<Bytes>)
    ensures HandedOk(chunks)
    ensures HandAll(chunks).lines == Lines(Concat(chunks)) <==> OverflowsLate(chunks)
  {
    if chunks != [] {
      var front, last := chunks[..|chunks| - 1], chunks[|chunks| - 1];
      HandedExactly(front);
      if OverflowsLate(chunks) { StaysLate(chunks); }
      if OverflowsLate(front) && (ChunksFit(chunks) || Completed(chunks, |front|) == Completed(chunks, |chunks|)) {
        BecomesLate(chunks);
      }
      assert chunks[..|chunks|] == chunks;
      if |HandAll(front).residue + last| > BUFFER_LIMIT {
        DroppedChunk(chunks);
      } else {
        KeptChunk(chunks);
      }
    }
  }

  /**
    The parser is handed exactly the lines of the payload if and only if no line is completed by an
    overflowing chunk or after one; the cache is the replay of what it was handed.
  */
  lemma NoEventLineLost(cache: map<string, string>, chunks: seq<Bytes>, parse: Parser)
    ensures HandAll(chunks).lines == Lines(Concat(chunks)) <==> OverflowsLate(chunks)
    ensures AbsorbAll(View(cache, []), chunks, parse).cache == Replay(cache, HandAll(chunks).lines, parse)
  {
    HandedExactly(chunks);
    CacheReplaysHanded(cache, chunks, parse);
  }

  lemma {:induction false} AbsorbTwo(v: View, a: Bytes, b: Bytes, parse: Parser)
    ensures AbsorbAll(v, [a], parse) == Absorb(v, a, parse)
    ensures AbsorbAll(v, [a, b], parse) == Absorb(Absorb(v, a, parse), b, parse)
  {
    assert [a][..0] == [] && [a, b][..1] == [a];
  }

  lemma {:induction false} AbsorbLine(line: Bytes, parse: Parser)
    requires NewlineFree(line) && |line| < BUFFER_LIMIT
    ensures Absorb(View(map[], []), line + [NEWLINE], parse) == View(Update(map[], line, parse), [])
  {
    var s := line + [NEWLINE];
    FirstNewlineAt(s, |line|);
    assert s[..|line|] == line && s[|line| + 1..] == [];
    TailOfNewlineFree([]);
    assert Lines(s) == [line] && Tail(s) == [];
    var v := View(map[], []);
    assert v.buffer + s == s;
    assert Replay(v.cache, [line], parse) == Update(v.cache, line, parse) by {
      assert [line][..0] == [];
      assert Replay(v.cache, [], parse) == v.cache;
    }
  }

  lemma {:induction false} AbsorbPadding(cache: map<string, string>, padding: Bytes, parse: Parser)
    requires NewlineFree(padding) && |padding| <= BUFFER_LIMIT
    ensures Absorb(View(cache, []), padding, parse) == View(cache, padding)
  {
    assert [] + padding == padding;
    TailOfNewlineFree(padding);
  }

  /** Without the bound it does: the same bytes in one chunk lose the event that two chunks deliver. */
  lemma OverflowLosesEvents(line: Bytes, padding: Bytes, id: string, parse: Parser)
    requires NewlineFree(line) && |line| < BUFFER_LIMIT && NewlineFree(padding) && |padding| == BUFFER_LIMIT
    requires parse(line) == Some(Started(id, None))
    ensures AbsorbAll(View(map[], []), [line + [NEWLINE] + padding], parse).cache == map[]
    ensures AbsorbAll(View(map[], []), [line + [NEWLINE], padding], parse).cache == map[id := id]
  {
    AbsorbTwo(View(map[], []), line + [NEWLINE] + padding, [], parse);
    AbsorbTwo(View(map[], []), line + [NEWLINE], padding, parse);
    AbsorbLine(line, parse);
    AbsorbPadding(map[id := id], padding, parse);
  }

  // ---------------------------------------------------------------- from the wire to the cache

  /** A chunk without extension, as the engine sends its events. */
  predicate IsPlain(c: Chunk) {
    c.extension == [] && c.size != [] && IsHex(c.size) && HexValue(c.size) == |c.data|
  }

  lemma {:induction false} PlainSizeLine(c: Chunk, more: Bytes)
    requires IsPlain(c)
    ensures var s := SizeLine(c) + more;
      LineLength(s, |s|) == |c.size| + 2 && Trim(s[..|c.size| + 2]) == c.size && s[|c.size| + 2..] == more
  {
    var s := SizeLine(c) + more;
    assert SizeLine(c) == c.size + [CR, NEWLINE];
    LineLengthAt(s, |s|, |c.size| + 1);
    PlainSizeLineReadsBack(c.size);
    assert s[..|c.size| + 2] == c.size + [CR, NEWLINE];
  }

  lemma {:induction false} FollowChunk(c: Chunk, more: Bytes, v: View, parse: Parser)
    requires IsPlain(c) && 0 < |c.data| <= USIZE_MAX
    ensures Follow(SizeLine(c) + c.data + [CR, NEWLINE] + more, v, parse)
         == Follow(more, Absorb(v, c.data, parse), parse)
  {
    var rest := c.data + [CR, NEWLINE] + more;
    assert SizeLine(c) + c.data + [CR, NEWLINE] + more == SizeLine(c) + rest;
    PlainSizeLine(c, rest);
    SizeParses(c.size);
    AfterData(c.data, CR, NEWLINE, more);
    FollowAfterLine(SizeLine(c) + rest, |SizeLine(c)|, v, parse);
  }

  function DataOf(chunks: seq<Chunk>): seq<Bytes> {
    seq(|chunks|, i requires 0 <= i < |chunks| => chunks[i].data)
  }

  lemma {:induction false} FirstChunkFirst(v: View, data: seq<Bytes>, parse: Parser)
    requires data != []
    ensures AbsorbAll(v, data, parse) == AbsorbAll(Absorb(v, data[0], parse), data[1..], parse)
  {
    var n := |data| - 1;
    if n == 0 {
      assert data[..0] == [];
    } else {
      var first := Absorb(v, data[0], parse);
      FirstChunkFirst(v, data[..n], parse);
      assert data[..n][1..] == data[1..][..n - 1];
      AbsorbLast(v, data, parse);
      AbsorbLast(first, data[1..], parse);
    }
  }

  lemma AbsorbLast(v: View, data: seq<Bytes>, parse: Parser)
    requires data != []
    ensures var n := |data| - 1;
      AbsorbAll(v, data, parse) == Absorb(AbsorbAll(v, data[..n], parse), data[n], parse)
  {
  }

  lemma {:induction false} AbsorbFirst(chunks: seq<Chunk>, v: View, parse: Parser)
    requires chunks != []
    ensures AbsorbAll(v, DataOf(chunks), parse)
         == AbsorbAll(Absorb(v, chunks[0].data, parse), DataOf(chunks[1..]), parse)
  {
    DataOfFirst(chunks);
    FirstChunkFirst(v, DataOf(chunks), parse);
  }

  lemma DataOfFirst(chunks: seq<Chunk>)
    requires chunks != []
    ensures DataOf(chunks)[0] == chunks[0].data && DataOf(chunks)[1..] == DataOf(chunks[1..])
  {
  }

  lemma {:induction false} FollowsEncoding(chunks: seq<Chunk>, rest: Bytes, v: View, parse: Parser)
    requires forall i :: 0 <= i < |chunks| ==> IsPlain(chunks[i]) && 0 < |chunks[i].data| <= USIZE_MAX
    ensures Follow(Encode(chunks, rest), v, parse) == Follow(rest, AbsorbAll(v, DataOf(chunks), parse), parse)
    decreases |chunks|
  {
    if chunks == [] {
      assert Encode(chunks, rest) == rest && DataOf(chunks) == [];
    } else {
      var c, more := chunks[0], chunks[1..];
      calc {
        Follow(Encode(chunks, rest), v, parse);
      == { EncodeFirst(chunks, rest); }
        Follow(SizeLine(c) + c.data + [CR, NEWLINE] + Encode(more, rest), v, parse);
      == { FollowChunk(c, Encode(more, rest), v, parse); }
        Follow(Encode(more, rest), Absorb(v, c.data, parse), parse);
      == { FollowsEncoding(more, rest, Absorb(v, c.data, parse), parse); }
        Follow(rest, AbsorbAll(Absorb(v, c.data, parse), DataOf(more), parse), parse);
      == { AbsorbFirst(chunks, v, parse); }
        Follow(rest, AbsorbAll(v, DataOf(chunks), parse), parse);
      }
    }
  }

  /** The event stream the engine sends leaves the cache as the replay of the event lines it carries. */
  lemma {:induction false} WireToCache(chunks: seq<Chunk>, last: Chunk, rest: Bytes, cache: map<string, string>,
                                       parse: Parser)
    requires forall i :: 0 <= i < |chunks| ==> IsPlain(chunks[i]) && chunks[i].data != []
    requires IsPlain(last) && last.data == [] && ChunksFit(DataOf(chunks))
    ensures Follow(Encode(chunks, SizeLine(last) + rest), View(cache, []), parse)
         == Followed(View(Replay(cache, Lines(Concat(DataOf(chunks))), parse), Tail(Concat(DataOf(chunks)))), false)
  {
    forall i | 0 <= i < |chunks| ensures |chunks[i].data| <= BUFFER_LIMIT {
      assert !Overflows(DataOf(chunks), i);
    }
    FollowsEncoding(chunks, SizeLine(last) + rest, View(cache, []), parse);
    CacheIsReplay(cache, DataOf(chunks), parse);
    PlainSizeLine(last, rest);
    SizeParses(last.size);
  }

  /**
    So over a whole event stream: the last event about a container that its payload carries decides what
    the cache holds of it.
  */
  lemma {:induction false} WireDecides(chunks: seq<Chunk>, last: Chunk, rest: Bytes, cache: map<string, string>,
                                       parse: Parser, k: nat, id: string)
    returns (after: map<string, string>)
    requires forall i :: 0 <= i < |chunks| ==> IsPlain(chunks[i]) && chunks[i].data != []
    requires IsPlain(last) && last.data == [] && ChunksFit(DataOf(chunks))
    requires var lines := Lines(Concat(DataOf(chunks)));
      k < |lines| && IsAbout(lines[k], id, parse) && forall j :: k < j < |lines| ==> !IsAbout(lines[j], id, parse)
    ensures after == Follow(Encode(chunks, SizeLine(last) + rest), View(cache, []), parse).view.cache
    ensures match parse(Lines(Concat(DataOf(chunks)))[k]).value
      case Died(_) => id !in after
      case Started(_, None) => id in after && after[id] == id
      case Started(_, Some(name)) => id in after && after[id] == name
  {
    WireToCache(chunks, last, rest, cache, parse);
    after := Replay(cache, Lines(Concat(DataOf(chunks))), parse);
    LastEventDecides(cache, Lines(Concat(DataOf(chunks))), k, id, parse);
  }

  // ---------------------------------------------------------------- streams that do not end well

  /** A stream that ends between two chunks leaves the loop idling, with everything before it in the cache. */
  lemma {:induction false} EndOfStreamIdles(chunks: seq<Chunk>, v: View, parse: Parser)
    requires forall i :: 0 <= i < |chunks| ==> IsPlain(chunks[i]) && 0 < |chunks[i].data| <= USIZE_MAX
    ensures Follow(Encode(chunks, []), v, parse) == Followed(AbsorbAll(v, DataOf(chunks), parse), true)
  {
    FollowsEncoding(chunks, [], v, parse);
  }

  /** A blank line where a size is expected is skipped. */
  lemma {:induction false} BlankLineSkipped(blanks: Bytes, rest: Bytes, v: View, parse: Parser)
    requires NewlineFree(blanks) && IsBlank(blanks)
    ensures Follow(blanks + [NEWLINE] + rest, v, parse) == Follow(rest, v, parse)
  {
    var s := blanks + [NEWLINE] + rest;
    LineLengthAt(s, |s|, |blanks|);
    assert s[..|blanks| + 1] == blanks + [NEWLINE] && s[|blanks| + 1..] == rest;
    TrimBlank(blanks + [NEWLINE]);
    FollowAfterLine(s, |blanks| + 1, v, parse);
  }

  /** A size line that writes no number ends the loop. */
  lemma {:induction false} NonsenseEndsLoop(line: Bytes, rest: Bytes, v: View, parse: Parser)
    requires NewlineFree(line) && Trim(line + [NEWLINE]) != [] && ParseSize(Trim(line + [NEWLINE])) == None
    ensures Follow(line + [NEWLINE] + rest, v, parse) == Followed(v, false)
  {
    var s := line + [NEWLINE] + rest;
    LineLengthAt(s, |s|, |line|);
    assert s[..|line| + 1] == line + [NEWLINE] && s[|line| + 1..] == rest;
    FollowAfterLine(s, |line| + 1, v, parse);
  }

  /** So does one with a chunk extension, which the other decoder would read past. */
  lemma {:induction false} ExtensionEndsLoop(c: Chunk, rest: Bytes, v: View, parse: Parser)
    requires IsHex(c.size) && IsExtension(c.extension) && c.extension != []
    ensures Follow(SizeLine(c) + rest, v, parse) == Followed(v, false)
  {
    var line := c.size + c.extension + [CR];
    assert SizeLine(c) == line + [NEWLINE];
    SemicolonIn(c.extension);
    assert SEMICOLON in line + [NEWLINE];
    TrimKeeps(line + [NEWLINE], SEMICOLON);
    StrangeByteIsNoSize(Trim(line + [NEWLINE]), SEMICOLON);
    NonsenseEndsLoop(line, rest, v, parse);
  }

  lemma {:induction false} SemicolonIn(e: Bytes)
    requires TrimStart(e) != [] && TrimStart(e)[0] == SEMICOLON
    ensures SEMICOLON in e
  {
    if IsSpace(e[0]) {
      SemicolonIn(e[1..]);
    }
  }
}
