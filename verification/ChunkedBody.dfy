/** Decoding a chunked response of the container engine (src/worker.rs, `execute_docker_uds_request`). */
module ChunkedBody {
  import opened Wrappers
  import opened LineSplitting
  import opened HttpReader
  import opened ChunkSize

  const LINE_LIMIT := 8192
  const MAX_PAYLOAD := 10485760

  datatype Failure = LineTooLong | BadSize | TooLarge | Truncated

  /**
    What decoding comes to. `Stalled` is an engine that closes the stream before the last chunk: each
    further read yields an empty line, which is skipped as a blank one, for ever.
  */
  datatype Decoded = Body(text: Bytes) | Failed(reason: Failure) | Stalled

  /** `String::from_utf8_lossy`: text stays as it is, each byte that is not becomes at most three. */
  ghost predicate IsLossy(lossy: Bytes -> Bytes) {
    forall c :: |lossy(c)| <= 3 * |c|
  }

  // ---------------------------------------------------------------- specification

  function Decode(s: Bytes, body: Bytes, lossy: Bytes -> Bytes): Decoded
    decreases |s|
  {
    var n := LineLength(s, LINE_LIMIT);
    var line, rest := s[..n], s[n..];
    var size := Trim(BeforeSemicolon(line));
    if s == [] then Stalled
    else if n == LINE_LIMIT && !EndsLine(line) then Failed(LineTooLong)
    else if size == [] then Decode(rest, body, lossy)
    else
      match ParseSize(size)
      case None => Failed(BadSize)
      case Some(k) =>
        if k == 0 then Body(body)
        else if k > MAX_PAYLOAD || |body| + k > MAX_PAYLOAD then Failed(TooLarge)
        else if k > |rest| then Failed(Truncated)
        else Decode(rest[k..][Min(2, |rest| - k)..], body + lossy(rest[..k]), lossy)
  }

  // ---------------------------------------------------------------- the code

  method ReadChunkedBody(reader: Reader, lossy: Bytes -> Bytes) returns (r: Decoded)
    requires reader.Valid() && IsLossy(lossy)
    modifies reader
    ensures r == Decode(old(reader.Contents()), [], lossy)
    ensures r.Body? ==> |r.text| <= 3 * MAX_PAYLOAD
  {
    var body: Bytes := [];
    ghost var all := reader.Contents();
    while true
      invariant reader.Valid() && |body| <= 3 * MAX_PAYLOAD
      invariant Decode(all, [], lossy) == Decode(reader.Contents(), body, lossy)
      decreases |reader.Contents()|
    {
      ghost var s := reader.Contents();
      var read := reader.ReadBoundedLine(LINE_LIMIT);
      if read.Failure? {
        return Failed(LineTooLong);
      }
      var line := read.value;
      if line == [] {
        return Stalled;
      }
      var size := Trim(BeforeSemicolon(line));
      if size == [] {
        continue;
      }
      var parsed := ParseSize(size);
      if parsed.None? {
        return Failed(BadSize);
      }
      var k := parsed.value;
      if k == 0 {
        return Body(body);
      }
      // The second operand is reached only with k at most 10 MiB, so the sum stays far below 2^64.
      assert k <= MAX_PAYLOAD ==> |body| + k <= USIZE_MAX;
      if k > MAX_PAYLOAD || |body| + k > MAX_PAYLOAD {
        return Failed(TooLarge);
      }
      var ok, chunk := reader.ReadExact(k);
      if !ok {
        return Failed(Truncated);
      }
      body := body + lossy(chunk);
      var _, _ := reader.ReadExact(2);
    }
  }

  // ---------------------------------------------------------------- section 7.1 of RFC 9112

  /** A chunk as sent: size in hexadecimal, extension, data. */
  datatype Chunk = Chunk(size: Bytes, extension: Bytes, data: Bytes)

  predicate IsChunk(c: Chunk) {
    && c.data != [] && c.size != [] && IsHex(c.size) && HexValue(c.size) == |c.data|
    && IsExtension(c.extension) && |c.size| + |c.extension| + 2 <= LINE_LIMIT
  }

  predicate IsLastChunk(c: Chunk) {
    && c.data == [] && c.size != [] && IsHex(c.size) && HexValue(c.size) == 0
    && IsExtension(c.extension) && |c.size| + |c.extension| + 2 <= LINE_LIMIT
  }

  function SizeLine(c: Chunk): Bytes {
    c.size + c.extension + [CR, NEWLINE]
  }

  function Encode(chunks: seq<Chunk>, rest: Bytes): Bytes {
    if chunks == [] then rest
    else SizeLine(chunks[0]) + chunks[0].data + [CR, NEWLINE] + Encode(chunks[1..], rest)
  }

  function Payload(chunks: seq<Chunk>): Bytes {
    if chunks == [] then [] else chunks[0].data + Payload(chunks[1..])
  }

  lemma EncodeFirst(chunks: seq<Chunk>, rest: Bytes)
    requires chunks != []
    ensures Encode(chunks, rest) == SizeLine(chunks[0]) + chunks[0].data + [CR, NEWLINE] + Encode(chunks[1..], rest)
  {
  }

  lemma SizeLineLength(c: Chunk, rest: Bytes)
    requires IsExtension(c.extension) && IsHex(c.size) && |c.size| + |c.extension| + 2 <= LINE_LIMIT
    ensures LineLength(SizeLine(c) + rest, LINE_LIMIT) == |SizeLine(c)|
    ensures (SizeLine(c) + rest)[..|SizeLine(c)|] == SizeLine(c) && (SizeLine(c) + rest)[|SizeLine(c)|..] == rest
    ensures EndsLine(SizeLine(c))
  {
    LineLengthAt(SizeLine(c) + rest, LINE_LIMIT, |SizeLine(c)| - 1);
  }

  /** What follows once the size on a line is known, if it is one. */
  function DecodeSized(size: Option<nat>, rest: Bytes, body: Bytes, lossy: Bytes -> Bytes): Decoded {
    match size
    case None => Failed(BadSize)
    case Some(k) =>
      if k == 0 then Body(body)
      else if k > MAX_PAYLOAD || |body| + k > MAX_PAYLOAD then Failed(TooLarge)
      else if k > |rest| then Failed(Truncated)
      else Decode(rest[k..][Min(2, |rest| - k)..], body + lossy(rest[..k]), lossy)
  }

  /** One turn of the decoder, once its line and the size on it are known. */
  lemma {:induction false} DecodeAfterLine(s: Bytes, n: nat, size: Bytes, rest: Bytes, body: Bytes,
                                           lossy: Bytes -> Bytes)
    requires 0 < n <= |s| && n == LineLength(s, LINE_LIMIT) && (n < LINE_LIMIT || EndsLine(s[..n])) && s[n..] == rest
    requires size != [] && Trim(BeforeSemicolon(s[..n])) == size
    ensures Decode(s, body, lossy) == DecodeSized(ParseSize(size), rest, body, lossy)
  {
  }

  lemma {:induction false} DecodeSizeLine(c: Chunk, rest: Bytes, body: Bytes, lossy: Bytes -> Bytes)
    requires c.size != [] && IsHex(c.size) && IsExtension(c.extension)
    requires |c.size| + |c.extension| + 2 <= LINE_LIMIT
    ensures Decode(SizeLine(c) + rest, body, lossy)
         == DecodeSized(if HexValue(c.size) > USIZE_MAX then None else Some(HexValue(c.size)), rest, body, lossy)
  {
    SizeLineLength(c, rest);
    SizeLineReadsBack(c.size, c.extension);
    SizeParses(c.size);
    DecodeAfterLine(SizeLine(c) + rest, |SizeLine(c)|, c.size, rest, body, lossy);
  }

  lemma AfterData(data: Bytes, x: Byte, y: Byte, more: Bytes)
    ensures var rest := data + [x, y] + more;
      rest[..|data|] == data && rest[|data|..][2..] == more
  {
  }

  /** A size, its data and any two bytes behind them: the data is converted, the two bytes are skipped. */
  lemma {:induction false} DecodeData(data: Bytes, x: Byte, y: Byte, more: Bytes, body: Bytes, lossy: Bytes -> Bytes)
    requires data != []
    ensures var r := DecodeSized(Some(|data|), data + [x, y] + more, body, lossy);
      if |body| + |data| <= MAX_PAYLOAD then r == Decode(more, body + lossy(data), lossy) else r == Failed(TooLarge)
  {
    AfterData(data, x, y, more);
  }

  /** Whatever two bytes follow the data of a chunk, they are read past. */
  lemma {:induction false} AnyTwoBytesSkipped(c: Chunk, x: Byte, y: Byte, more: Bytes, body: Bytes,
                                              lossy: Bytes -> Bytes)
    requires IsChunk(c)
    ensures var r := Decode(SizeLine(c) + c.data + [x, y] + more, body, lossy);
      if |body| + |c.data| <= MAX_PAYLOAD then r == Decode(more, body + lossy(c.data), lossy)
      else r == Failed(if |c.data| > USIZE_MAX then BadSize else TooLarge)
  {
    var rest := c.data + [x, y] + more;
    assert SizeLine(c) + c.data + [x, y] + more == SizeLine(c) + rest;
    DecodeSizeLine(c, rest, body, lossy);
    DecodeData(c.data, x, y, more, body, lossy);
  }

  lemma {:induction false} DecodeChunk(c: Chunk, more: Bytes, body: Bytes, lossy: Bytes -> Bytes)
    requires IsChunk(c)
    ensures var r := Decode(SizeLine(c) + c.data + [CR, NEWLINE] + more, body, lossy);
      if |body| + |c.data| <= MAX_PAYLOAD then r == Decode(more, body + lossy(c.data), lossy) else r.Failed?
  {
    AnyTwoBytesSkipped(c, CR, NEWLINE, more, body, lossy);
  }

  // ---------------------------------------------------------------- what whole encodings decode to

  /** What the chunks decode to: each converted by itself. */
  function Text(chunks: seq<Chunk>, lossy: Bytes -> Bytes): Bytes {
    if chunks == [] then [] else lossy(chunks[0].data) + Text(chunks[1..], lossy)
  }

  /** Chunk `i` fits behind the text decoded before it, and `given` bytes more. */
  predicate FitsAt(chunks: seq<Chunk>, i: nat, given: nat, lossy: Bytes -> Bytes)
    requires i < |chunks|
  {
    given + |Text(chunks[..i], lossy)| + |chunks[i].data| <= MAX_PAYLOAD
  }

  ghost predicate Fits(chunks: seq<Chunk>, given: nat, lossy: Bytes -> Bytes) {
    forall i :: 0 <= i < |chunks| ==> FitsAt(chunks, i, given, lossy)
  }

  lemma FitsAtLater(chunks: seq<Chunk>, i: nat, given: nat, lossy: Bytes -> Bytes)
    requires i < |chunks| - 1
    ensures FitsAt(chunks, i + 1, given, lossy) <==> FitsAt(chunks[1..], i, given + |lossy(chunks[0].data)|, lossy)
  {
    assert chunks[..i + 1][1..] == chunks[1..][..i];
  }

  lemma FitsFirst(chunks: seq<Chunk>, given: nat, lossy: Bytes -> Bytes)
    requires chunks != []
    ensures Fits(chunks, given, lossy) <==>
      && given + |chunks[0].data| <= MAX_PAYLOAD
      && Fits(chunks[1..], given + |lossy(chunks[0].data)|, lossy)
  {
    var rest, more := chunks[1..], given + |lossy(chunks[0].data)|;
    assert FitsAt(chunks, 0, given, lossy) <==> given + |chunks[0].data| <= MAX_PAYLOAD by {
      assert chunks[..0] == [];
    }
    if Fits(chunks, given, lossy) {
      forall i | 0 <= i < |rest| ensures FitsAt(rest, i, more, lossy) {
        FitsAtLater(chunks, i, given, lossy);
      }
    }
    if FitsAt(chunks, 0, given, lossy) && Fits(rest, more, lossy) {
      forall i | 0 <= i < |chunks| ensures FitsAt(chunks, i, given, lossy) {
        if i > 0 { FitsAtLater(chunks, i - 1, given, lossy); }
      }
    }
  }

  lemma {:induction false} DecodeFirst(chunks: seq<Chunk>, rest: Bytes, body: Bytes, lossy: Bytes -> Bytes)
    requires chunks != [] && IsChunk(chunks[0])
    ensures var r, data := Decode(Encode(chunks, rest), body, lossy), chunks[0].data;
      if |body| + |data| <= MAX_PAYLOAD then r == Decode(Encode(chunks[1..], rest), body + lossy(data), lossy)
      else r.Failed?
  {
    EncodeFirst(chunks, rest);
    DecodeChunk(chunks[0], Encode(chunks[1..], rest), body, lossy);
  }

  lemma {:induction false} FittingChunks(chunks: seq<Chunk>, rest: Bytes, body: Bytes, lossy: Bytes -> Bytes)
    requires Fits(chunks, |body|, lossy) && forall i :: 0 <= i < |chunks| ==> IsChunk(chunks[i])
    ensures Decode(Encode(chunks, rest), body, lossy) == Decode(rest, body + Text(chunks, lossy), lossy)
    decreases |chunks|
  {
    if chunks == [] {
      assert body + [] == body;
    } else {
      var first, later := lossy(chunks[0].data), chunks[1..];
      calc {
        Decode(Encode(chunks, rest), body, lossy);
      == { FitsFirst(chunks, |body|, lossy); DecodeFirst(chunks, rest, body, lossy); }
        Decode(Encode(later, rest), body + first, lossy);
      == { FitsFirst(chunks, |body|, lossy); FittingChunks(later, rest, body + first, lossy); }
        Decode(rest, body + first + Text(later, lossy), lossy);
      == { Regroup(body, first, Text(later, lossy)); }
        Decode(rest, body + Text(chunks, lossy), lossy);
      }
    }
  }

  lemma {:induction false} UnfittingChunks(chunks: seq<Chunk>, rest: Bytes, body: Bytes, lossy: Bytes -> Bytes)
    requires !Fits(chunks, |body|, lossy) && forall i :: 0 <= i < |chunks| ==> IsChunk(chunks[i])
    ensures Decode(Encode(chunks, rest), body, lossy).Failed?
    decreases |chunks|
  {
    var first, later := lossy(chunks[0].data), chunks[1..];
    FitsFirst(chunks, |body|, lossy);
    if |body| + |chunks[0].data| <= MAX_PAYLOAD {
      calc ==> {
        true;
      == { UnfittingChunks(later, rest, body + first, lossy); }
        Decode(Encode(later, rest), body + first, lossy).Failed?;
      == { DecodeFirst(chunks, rest, body, lossy); }
        Decode(Encode(chunks, rest), body, lossy).Failed?;
      }
    } else {
      DecodeFirst(chunks, rest, body, lossy);
    }
  }

  /**
    Decoding reads through well-formed chunks if and only if each fits, as received, behind the text
    decoded before it; then it has decoded their text.
  */
  lemma {:induction false} DecodesChunks(chunks: seq<Chunk>, rest: Bytes, body: Bytes, lossy: Bytes -> Bytes)
    requires forall i :: 0 <= i < |chunks| ==> IsChunk(chunks[i])
    ensures var r := Decode(Encode(chunks, rest), body, lossy);
      if Fits(chunks, |body|, lossy) then r == Decode(rest, body + Text(chunks, lossy), lossy) else r.Failed?
  {
    if Fits(chunks, |body|, lossy) {
      FittingChunks(chunks, rest, body, lossy);
    } else {
      UnfittingChunks(chunks, rest, body, lossy);
    }
  }

  /** A well-formed stream decodes to the text of its chunks exactly if each fits, and fails otherwise. */
  lemma {:induction false} DecodesExactly(chunks: seq<Chunk>, last: Chunk, trailer: Bytes, lossy: Bytes -> Bytes)
    requires IsLastChunk(last) && forall i :: 0 <= i < |chunks| ==> IsChunk(chunks[i])
    ensures var r := Decode(Encode(chunks, SizeLine(last) + trailer), [], lossy);
      if Fits(chunks, 0, lossy) then r == Body(Text(chunks, lossy)) else r.Failed?
  {
    DecodesChunks(chunks, SizeLine(last) + trailer, [], lossy);
    DecodeSizeLine(last, trailer, [] + Text(chunks, lossy), lossy);
    assert [] + Text(chunks, lossy) == Text(chunks, lossy);
  }

  /** Chunks that are text of their own stay as they are, and fit exactly if their data does. */
  lemma {:induction false} TextStays(chunks: seq<Chunk>, given: nat, lossy: Bytes -> Bytes)
    requires forall i :: 0 <= i < |chunks| ==> lossy(chunks[i].data) == chunks[i].data
    requires given <= MAX_PAYLOAD
    ensures Text(chunks, lossy) == Payload(chunks)
    ensures Fits(chunks, given, lossy) <==> given + |Payload(chunks)| <= MAX_PAYLOAD
  {
    if chunks != [] {
      FitsFirst(chunks, given, lossy);
      assert lossy(chunks[0].data) == chunks[0].data;
      if given + |chunks[0].data| <= MAX_PAYLOAD {
        TextStays(chunks[1..], given + |chunks[0].data|, lossy);
      } else {
        TextStays(chunks[1..], 0, lossy);
      }
    }
  }

  /** A well-formed stream of text decodes to its body exactly when that has at most 10 MiB, and fails otherwise. */
  lemma {:induction false} RoundTrip(chunks: seq<Chunk>, last: Chunk, trailer: Bytes, lossy: Bytes -> Bytes)
    requires forall i :: 0 <= i < |chunks| ==> IsChunk(chunks[i]) && lossy(chunks[i].data) == chunks[i].data
    requires IsLastChunk(last)
    ensures var r := Decode(Encode(chunks, SizeLine(last) + trailer), [], lossy);
      if |Payload(chunks)| <= MAX_PAYLOAD then r == Body(Payload(chunks)) else r.Failed?
  {
    DecodesExactly(chunks, last, trailer, lossy);
    TextStays(chunks, 0, lossy);
  }

  lemma {:induction false} TextAppend(a: seq<Chunk>, b: seq<Chunk>, lossy: Bytes -> Bytes)
    ensures Text(a + b, lossy) == Text(a, lossy) + Text(b, lossy)
  {
    if a == [] {
      assert a + b == b;
    } else {
      assert (a + b)[1..] == a[1..] + b;
      TextAppend(a[1..], b, lossy);
    }
  }

  lemma LastChunkRoom(chunks: seq<Chunk>, lossy: Bytes -> Bytes)
    requires chunks != [] && Fits(chunks, 0, lossy)
    ensures var n := |chunks| - 1;
      && |Text(chunks[..n], lossy)| + |chunks[n].data| <= MAX_PAYLOAD
      && Text(chunks, lossy) == Text(chunks[..n], lossy) + lossy(chunks[n].data)
  {
    var n := |chunks| - 1;
    assert chunks == chunks[..n] + [chunks[n]];
    TextAppend(chunks[..n], [chunks[n]], lossy);
    assert Text([chunks[n]], lossy) == lossy(chunks[n].data);
    assert FitsAt(chunks, n, 0, lossy);
  }

  /**
    When the decoded text has more than 10 MiB although decoding succeeds: exactly when the conversion
    of the last chunk outgrows the room the chunk itself fitted in. What comes before it never does.
  */
  lemma {:induction false} OnlyTheLastChunkExceeds(chunks: seq<Chunk>, last: Chunk, trailer: Bytes,
                                                   lossy: Bytes -> Bytes)
    returns (r: Decoded)
    requires IsLastChunk(last) && chunks != [] && forall i :: 0 <= i < |chunks| ==> IsChunk(chunks[i])
    ensures r == Decode(Encode(chunks, SizeLine(last) + trailer), [], lossy)
    ensures var before, d := Text(chunks[..|chunks| - 1], lossy), chunks[|chunks| - 1].data;
      && (r.Body? ==> |before| + |d| <= MAX_PAYLOAD)
      && (r.Body? && |r.text| > MAX_PAYLOAD <==> Fits(chunks, 0, lossy) && |before| + |lossy(d)| > MAX_PAYLOAD)
  {
    r := DecodedOnce(chunks, last, trailer, lossy);
    if Fits(chunks, 0, lossy) {
      LastChunkRoom(chunks, lossy);
    }
  }

  lemma {:induction false} DecodedOnce(chunks: seq<Chunk>, last: Chunk, trailer: Bytes, lossy: Bytes -> Bytes)
    returns (r: Decoded)
    requires IsLastChunk(last) && forall i :: 0 <= i < |chunks| ==> IsChunk(chunks[i])
    ensures r == Decode(Encode(chunks, SizeLine(last) + trailer), [], lossy)
    ensures if Fits(chunks, 0, lossy) then r == Body(Text(chunks, lossy)) else r.Failed?
  {
    r := Decode(Encode(chunks, SizeLine(last) + trailer), [], lossy);
    DecodesExactly(chunks, last, trailer, lossy);
  }

  // ---------------------------------------------------------------- a response that exceeds the limit

  /** Text in which every byte of 128 or more is taken for the replacement character. */
  function Replaced(c: Bytes): (text: Bytes)
    ensures |text| <= 3 * |c|
  {
    if c == [] then [] else (if c[0] < 128 then [c[0]] else [239, 191, 189]) + Replaced(c[1..])
  }

  lemma {:induction false} ReplacedGrows(c: Bytes)
    requires forall i :: 0 <= i < |c| ==> c[i] >= 128
    ensures |Replaced(c)| == 3 * |c|
  {
    if c != [] {
      ReplacedGrows(c[1..]);
    }
  }

  /** "a00000", which is 10 MiB in hexadecimal. */
  const TEN_MIB: Bytes := [97, 48, 48, 48, 48, 48]

  lemma TenMib()
    ensures IsHex(TEN_MIB) && HexValue(TEN_MIB) == MAX_PAYLOAD
  {
    HexMore([97], 48);
    HexMore([97, 48], 48);
    HexMore([97, 48, 48], 48);
    HexMore([97, 48, 48, 48], 48);
    HexMore([97, 48, 48, 48, 48], 48);
    assert [97] + [48] == [97, 48] && [97, 48] + [48] == [97, 48, 48];
    assert [97, 48, 48] + [48] == [97, 48, 48, 48] && [97, 48, 48, 48] + [48] == [97, 48, 48, 48, 48];
    assert [97, 48, 48, 48, 48] + [48] == TEN_MIB;
    assert HexValue([97]) == 10 by {
      assert [97][..0] == [];
    }
  }

  lemma {:induction false} OneChunk(c: Chunk, lossy: Bytes -> Bytes)
    requires |c.data| <= MAX_PAYLOAD
    ensures Fits([c], 0, lossy) && Text([c], lossy) == lossy(c.data)
  {
    assert [c][1..] == [] && lossy(c.data) + [] == lossy(c.data);
    assert FitsAt([c], 0, 0, lossy) by {
      assert [c][..0] == [];
    }
  }

  lemma {:induction false} UntextualChunk() returns (c: Chunk)
    ensures IsChunk(c) && |c.data| == MAX_PAYLOAD && |Replaced(c.data)| == 3 * MAX_PAYLOAD
  {
    var data := seq(MAX_PAYLOAD, _ => 255);
    TenMib();
    c := Chunk(TEN_MIB, [], data);
    ReplacedGrows(data);
  }

  /** One chunk of 10 MiB, none of it text, is accepted and comes to 30 MiB. */
  lemma {:induction false} LimitExceeded(last: Chunk, trailer: Bytes) returns (c: Chunk)
    requires IsLastChunk(last)
    ensures IsChunk(c) && IsLossy(Replaced)
    ensures Decode(Encode([c], SizeLine(last) + trailer), [], Replaced) == Body(Replaced(c.data))
    ensures |Replaced(c.data)| == 3 * MAX_PAYLOAD
  {
    c := UntextualChunk();
    OneChunk(c, Replaced);
    var r := DecodedOnce([c], last, trailer, Replaced);
  }

  // ---------------------------------------------------------------- streams that are not well formed

  lemma {:induction false} FirstLine(line: Bytes, rest: Bytes)
    requires NewlineFree(line) && |line| < LINE_LIMIT
    ensures var s := line + [NEWLINE] + rest;
      LineLength(s, LINE_LIMIT) == |line| + 1 && s[..|line| + 1] == line + [NEWLINE] && s[|line| + 1..] == rest
  {
    LineLengthAt(line + [NEWLINE] + rest, LINE_LIMIT, |line|);
  }

  /** A line that is blank, or blank up to a semicolon, is skipped where a size is expected. */
  lemma {:induction false} BlankLineSkipped(line: Bytes, rest: Bytes, body: Bytes, lossy: Bytes -> Bytes)
    requires NewlineFree(line) && |line| < LINE_LIMIT
    requires IsBlank(BeforeSemicolon(line + [NEWLINE]))
    ensures Decode(line + [NEWLINE] + rest, body, lossy) == Decode(rest, body, lossy)
  {
    FirstLine(line, rest);
    TrimBlank(BeforeSemicolon(line + [NEWLINE]));
  }

  /** A line that holds before its semicolon anything but digits, blanks and plus signs is refused. */
  lemma {:induction false} NonsenseRefused(line: Bytes, b: Byte, rest: Bytes, body: Bytes, lossy: Bytes -> Bytes)
    requires NewlineFree(line) && |line| < LINE_LIMIT
    requires b in BeforeSemicolon(line + [NEWLINE]) && !IsSpace(b) && !IsHexDigit(b) && b != PLUS
    ensures Decode(line + [NEWLINE] + rest, body, lossy) == Failed(BadSize)
  {
    var s, n, size := line + [NEWLINE] + rest, |line| + 1, Trim(BeforeSemicolon(line + [NEWLINE]));
    FirstLine(line, rest);
    assert s[..n] == line + [NEWLINE] && s[n..] == rest;
    TrimKeeps(BeforeSemicolon(line + [NEWLINE]), b);
    StrangeByteIsNoSize(size, b);
    assert b in size && EndsLine(s[..n]);
    DecodeAfterLine(s, n, size, rest, body, lossy);
  }

  /** 8192 bytes without a newline are refused, whatever follows. */
  lemma {:induction false} EndlessLineRefused(s: Bytes, body: Bytes, lossy: Bytes -> Bytes)
    requires |s| >= LINE_LIMIT && NewlineFree(s[..LINE_LIMIT])
    ensures Decode(s, body, lossy) == Failed(LineTooLong)
  {
    FirstNewlineAt(s[..LINE_LIMIT], LINE_LIMIT);
  }

  /** The decoder over what the header read left over and what the socket delivers: only their sum counts. */
  method DecodeResponse(leftover: Bytes, arrivals: seq<Bytes>, lossy: Bytes -> Bytes) returns (r: Decoded)
    requires IsLossy(lossy) && forall i :: 0 <= i < |arrivals| ==> arrivals[i] != []
    ensures r == Decode(leftover + Join(arrivals), [], lossy)
    ensures r.Body? ==> |r.text| <= 3 * MAX_PAYLOAD
  {
    var reader := new Reader(leftover, arrivals);
    r := ReadChunkedBody(reader, lossy);
  }
}
