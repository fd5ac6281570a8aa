/**
  Chunked responses that the container engine cuts off: what the decoder makes of every prefix of every
  well-formed response, whether or not the response keeps within the limits.
*/
module CutResponses {
  import opened LineSplitting
  import opened HttpReader
  import opened ChunkSize
  import opened ChunkedBody

  // ---------------------------------------------------------------- specification

  /** Length of a chunk as sent. */
  function Sent(c: Chunk): nat {
    |SizeLine(c)| + |c.data| + 2
  }

  /** What a size comes to when nothing has arrived behind it. */
  function Unfollowed(size: nat, body: Bytes): Decoded {
    if size > USIZE_MAX then Failed(BadSize)
    else if size == 0 then Body(body)
    else if size > MAX_PAYLOAD || |body| + size > MAX_PAYLOAD then Failed(TooLarge)
    else Failed(Truncated)
  }

  /** What decoding the first `p` bytes of an encoding comes to. */
  function CutOff(chunks: seq<Chunk>, p: nat, body: Bytes, lossy: Bytes -> Bytes): Decoded
    decreases |chunks|
  {
    if p == 0 then Stalled
    else if chunks == [] then Body(body)
    else if p < |SizeLine(chunks[0])| then
      var arrived := chunks[0].size[..Min(p, |chunks[0].size|)];
      Unfollowed(if IsHex(arrived) then HexValue(arrived) else 0, body)
    else if |body| + |chunks[0].data| > MAX_PAYLOAD then Unfollowed(|chunks[0].data|, body)
    else if p < |SizeLine(chunks[0])| + |chunks[0].data| then Failed(Truncated)
    else if p < Sent(chunks[0]) then Stalled
    else CutOff(chunks[1..], p - Sent(chunks[0]), body + lossy(chunks[0].data), lossy)
  }

  // ---------------------------------------------------------------- decoding a prefix

  lemma {:induction false} BeforeSemicolonPrefix(s: Bytes, n: nat)
    requires n <= |s|
    ensures BeforeSemicolon(s[..n]) <= BeforeSemicolon(s)
    decreases n
  {
    if n > 0 && s[0] != SEMICOLON {
      assert s[..n][1..] == s[1..][..n - 1];
      BeforeSemicolonPrefix(s[1..], n - 1);
    }
  }

  lemma {:induction false} PartialLineLength(c: Chunk, p: nat)
    requires IsHex(c.size) && IsExtension(c.extension)
    requires |c.size| + |c.extension| + 2 <= LINE_LIMIT && 0 < p < |SizeLine(c)|
    ensures LineLength(SizeLine(c)[..p], LINE_LIMIT) == p < LINE_LIMIT
  {
    var q := SizeLine(c)[..p];
    forall i | 0 <= i < p ensures q[i] != NEWLINE {
      assert q[i] == (c.size + c.extension + [CR])[i];
    }
    FirstNewlineAt(q, p);
    assert q[..Min(LINE_LIMIT, p)] == q;
  }

  lemma {:induction false} DigitsThenBlanks(size: Bytes, part: Bytes)
    requires size != [] && IsHex(size)
    requires IsBlank(BeforeSemicolon(part))
    ensures Trim(BeforeSemicolon(size + part)) == size
  {
    var blanks := BeforeSemicolon(part);
    BeforeSemicolonOfDigits(size, part);
    assert TrimStart(size + blanks) == size + blanks;
    TrimEndBlanks(size, blanks);
  }

  /** A size line that is cut off: whatever digits have arrived are read as the size. */
  lemma {:induction false} PartialSizeLine(c: Chunk, p: nat)
    requires c.size != [] && IsHex(c.size) && IsExtension(c.extension) && 0 < p < |SizeLine(c)|
    ensures Trim(BeforeSemicolon(SizeLine(c)[..p])) == c.size[..Min(p, |c.size|)]
  {
    var rest := c.extension + [CR, NEWLINE];
    assert SizeLine(c) == c.size + rest;
    if p <= |c.size| {
      assert SizeLine(c)[..p] == c.size[..p] + [];
      DigitsThenBlanks(c.size[..p], []);
    } else {
      var part := rest[..p - |c.size|];
      assert SizeLine(c)[..p] == c.size + part && c.size[..|c.size|] == c.size;
      ExtensionThenCrLf(c.extension);
      BeforeSemicolonPrefix(rest, p - |c.size|);
      DigitsThenBlanks(c.size, part);
    }
  }

  lemma {:induction false} DecodePartialSizeLine(c: Chunk, p: nat, body: Bytes, lossy: Bytes -> Bytes)
    requires c.size != [] && IsHex(c.size) && IsExtension(c.extension)
    requires |c.size| + |c.extension| + 2 <= LINE_LIMIT && 0 < p < |SizeLine(c)|
    ensures Decode(SizeLine(c)[..p], body, lossy) == Unfollowed(HexValue(c.size[..Min(p, |c.size|)]), body)
  {
    var q, size := SizeLine(c)[..p], c.size[..Min(p, |c.size|)];
    PartialLineLength(c, p);
    PartialSizeLine(c, p);
    SizeParses(size);
    assert q[..p] == q && q[p..] == [];
    DecodeAfterLine(q, p, size, [], body, lossy);
  }

  /** A chunk whose size line has arrived and whose data has not, or whose end has not. */
  lemma {:induction false} DecodePartialChunk(c: Chunk, more: Bytes, p: nat, body: Bytes, lossy: Bytes -> Bytes)
    requires IsChunk(c) && |body| + |c.data| <= MAX_PAYLOAD && |SizeLine(c)| <= p < Sent(c)
    ensures var s := SizeLine(c) + c.data + [CR, NEWLINE] + more;
      Decode(s[..p], body, lossy) == if p < |SizeLine(c)| + |c.data| then Failed(Truncated) else Stalled
  {
    var s := SizeLine(c) + c.data + [CR, NEWLINE] + more;
    var rest := s[..p][|SizeLine(c)|..];
    assert s[..p] == SizeLine(c) + rest;
    DecodeSizeLine(c, rest, body, lossy);
    if |c.data| <= |rest| {
      assert rest[|c.data|..][Min(2, |rest| - |c.data|)..] == [];
    }
  }

  /** A chunk that does not fit is refused as soon as its size line has arrived. */
  lemma {:induction false} DecodeRefusedChunk(c: Chunk, more: Bytes, p: nat, body: Bytes, lossy: Bytes -> Bytes)
    requires IsChunk(c) && |body| + |c.data| > MAX_PAYLOAD && |SizeLine(c)| <= p <= Sent(c) + |more|
    ensures Decode((SizeLine(c) + c.data + [CR, NEWLINE] + more)[..p], body, lossy) == Unfollowed(|c.data|, body)
  {
    var s := SizeLine(c) + c.data + [CR, NEWLINE] + more;
    var rest := s[..p][|SizeLine(c)|..];
    assert s[..p] == SizeLine(c) + rest;
    DecodeSizeLine(c, rest, body, lossy);
  }

  lemma {:induction false} DecodeLastPart(last: Chunk, trailer: Bytes, p: nat, body: Bytes, lossy: Bytes -> Bytes)
    requires IsLastChunk(last) && 0 < p <= |SizeLine(last) + trailer|
    ensures Decode((SizeLine(last) + trailer)[..p], body, lossy) == Body(body)
  {
    var s := SizeLine(last) + trailer;
    if p < |SizeLine(last)| {
      assert s[..p] == SizeLine(last)[..p];
      HexPrefix(last.size, Min(p, |last.size|));
      DecodePartialSizeLine(last, p, body, lossy);
    } else {
      assert s[..p] == SizeLine(last) + trailer[..p - |SizeLine(last)|];
      DecodeSizeLine(last, trailer[..p - |SizeLine(last)|], body, lossy);
    }
  }

  lemma {:induction false} CutInSizeLine(c: Chunk, more: Bytes, p: nat, body: Bytes, lossy: Bytes -> Bytes)
    requires IsChunk(c) && 0 < p < |SizeLine(c)|
    ensures Decode((SizeLine(c) + c.data + [CR, NEWLINE] + more)[..p], body, lossy)
         == Unfollowed(HexValue(c.size[..Min(p, |c.size|)]), body)
  {
    assert (SizeLine(c) + c.data + [CR, NEWLINE] + more)[..p] == SizeLine(c)[..p];
    DecodePartialSizeLine(c, p, body, lossy);
  }

  lemma {:induction false} CutLater(c: Chunk, more: Bytes, p: nat, body: Bytes, lossy: Bytes -> Bytes)
    requires IsChunk(c) && |body| + |c.data| <= MAX_PAYLOAD && Sent(c) <= p <= Sent(c) + |more|
    ensures Decode((SizeLine(c) + c.data + [CR, NEWLINE] + more)[..p], body, lossy)
         == Decode(more[..p - Sent(c)], body + lossy(c.data), lossy)
  {
    var part := more[..p - Sent(c)];
    assert (SizeLine(c) + c.data + [CR, NEWLINE] + more)[..p] == SizeLine(c) + c.data + [CR, NEWLINE] + part;
    DecodeChunk(c, part, body, lossy);
  }

  /** The first chunk settles it: the cut lies in it, or it does not fit. */
  predicate EndsInFirst(chunks: seq<Chunk>, p: nat, body: Bytes) {
    chunks != [] && (p < Sent(chunks[0]) || |body| + |chunks[0].data| > MAX_PAYLOAD)
  }

  lemma {:induction false} DecodesFirst(chunks: seq<Chunk>, end: Bytes, p: nat, body: Bytes, lossy: Bytes -> Bytes)
    requires EndsInFirst(chunks, p, body) && IsChunk(chunks[0]) && p <= |Encode(chunks, end)|
    ensures Decode(Encode(chunks, end)[..p], body, lossy) == CutOff(chunks, p, body, lossy)
  {
    var c, more := chunks[0], Encode(chunks[1..], end);
    EncodeFirst(chunks, end);
    if p == 0 {
    } else if p < |SizeLine(c)| {
      CutInSizeLine(c, more, p, body, lossy);
    } else if |body| + |c.data| > MAX_PAYLOAD {
      DecodeRefusedChunk(c, more, p, body, lossy);
    } else {
      DecodePartialChunk(c, more, p, body, lossy);
    }
  }

  lemma {:induction false} CutOffLater(chunks: seq<Chunk>, p: nat, body: Bytes, lossy: Bytes -> Bytes)
    requires chunks != [] && IsChunk(chunks[0]) && !EndsInFirst(chunks, p, body)
    ensures CutOff(chunks, p, body, lossy)
         == CutOff(chunks[1..], p - Sent(chunks[0]), body + lossy(chunks[0].data), lossy)
  {
  }

  /** What decoding a prefix of a well-formed encoding comes to, wherever it is cut. */
  lemma {:induction false} DecodesPrefix(chunks: seq<Chunk>, last: Chunk, trailer: Bytes, p: nat, body: Bytes,
                                         lossy: Bytes -> Bytes)
    requires IsLastChunk(last) && forall i :: 0 <= i < |chunks| ==> IsChunk(chunks[i])
    requires p <= |Encode(chunks, SizeLine(last) + trailer)|
    ensures Decode(Encode(chunks, SizeLine(last) + trailer)[..p], body, lossy) == CutOff(chunks, p, body, lossy)
    decreases |chunks|
  {
    var end := SizeLine(last) + trailer;
    if chunks == [] {
      if p > 0 { DecodeLastPart(last, trailer, p, body, lossy); }
    } else if EndsInFirst(chunks, p, body) {
      DecodesFirst(chunks, end, p, body, lossy);
    } else {
      var c, later := chunks[0], chunks[1..];
      EncodeFirst(chunks, end);
      calc {
        Decode(Encode(chunks, end)[..p], body, lossy);
      == { CutLater(c, Encode(later, end), p, body, lossy); }
        Decode(Encode(later, end)[..p - Sent(c)], body + lossy(c.data), lossy);
      == { DecodesPrefix(later, last, trailer, p - Sent(c), body + lossy(c.data), lossy); }
        CutOff(later, p - Sent(c), body + lossy(c.data), lossy);
      == { CutOffLater(chunks, p, body, lossy); }
        CutOff(chunks, p, body, lossy);
      }
    }
  }

  // ---------------------------------------------------------------- the three ends of a cut stream

  /** Where chunk `i` starts. */
  function Start(chunks: seq<Chunk>, i: nat): nat
    requires i <= |chunks|
  {
    if i == 0 then 0 else Start(chunks, i - 1) + Sent(chunks[i - 1])
  }

  lemma {:induction false} StartLater(chunks: seq<Chunk>, i: nat)
    requires i < |chunks|
    ensures Start(chunks, i + 1) == Sent(chunks[0]) + Start(chunks[1..], i)
  {
    if i > 0 {
      StartLater(chunks, i - 1);
    }
  }

  /** The cut is at a boundary behind chunk `i`: its data is complete, the next chunk has not begun. */
  predicate BehindData(chunks: seq<Chunk>, i: nat, p: nat)
    requires i < |chunks|
  {
    Start(chunks, i) + Sent(chunks[i]) <= p + 2 && p <= Start(chunks, i) + Sent(chunks[i])
  }

  /** The cut is inside the size of chunk `i`, and the digits before it are all zeros. */
  predicate InZeros(chunks: seq<Chunk>, i: nat, p: nat)
    requires i < |chunks|
  {
    Start(chunks, i) < p <= Start(chunks, i) + |chunks[i].size| && AllZeros(chunks[i].size[..p - Start(chunks, i)])
  }

  lemma {:induction false} ZeroMeansZeros(s: Bytes)
    requires IsHex(s)
    ensures HexValue(s) == 0 <==> AllZeros(s)
  {
    if s != [] {
      var n := |s| - 1;
      ZeroMeansZeros(s[..n]);
      assert s == s[..n] + [s[n]];
    }
  }

  lemma EndsLater(chunks: seq<Chunk>, i: nat, p: nat)
    requires i < |chunks| - 1 && p >= Sent(chunks[0])
    ensures BehindData(chunks, i + 1, p) <==> BehindData(chunks[1..], i, p - Sent(chunks[0]))
    ensures InZeros(chunks, i + 1, p) <==> InZeros(chunks[1..], i, p - Sent(chunks[0]))
  {
    StartLater(chunks, i);
  }

  /** The cut looks complete at chunk `i`: in its leading zeros or, for the number of chunks, in the last chunk. */
  predicate CutIn(chunks: seq<Chunk>, i: nat, p: nat)
    requires i <= |chunks|
  {
    Start(chunks, i) < p && (i < |chunks| ==> InZeros(chunks, i, p))
  }

  /** The decoder gets as far as chunk `i`: those before it fit. */
  ghost predicate Reaches(chunks: seq<Chunk>, i: nat, given: nat, lossy: Bytes -> Bytes)
    requires i <= |chunks|
  {
    Fits(chunks[..i], given, lossy)
  }

  ghost predicate StallsAt(chunks: seq<Chunk>, p: nat, given: nat, lossy: Bytes -> Bytes) {
    p == 0 || exists i :: 0 <= i < |chunks| && BehindData(chunks, i, p) && Reaches(chunks, i + 1, given, lossy)
  }

  ghost predicate CompleteAt(chunks: seq<Chunk>, p: nat, given: nat, lossy: Bytes -> Bytes) {
    exists i :: 0 <= i <= |chunks| && CutIn(chunks, i, p) && Reaches(chunks, i, given, lossy)
  }

  lemma {:induction false} ReachesLater(chunks: seq<Chunk>, i: nat, given: nat, lossy: Bytes -> Bytes)
    requires i < |chunks|
    ensures Reaches(chunks, i + 1, given, lossy) <==>
      && given + |chunks[0].data| <= MAX_PAYLOAD
      && Reaches(chunks[1..], i, given + |lossy(chunks[0].data)|, lossy)
  {
    var front := chunks[..i + 1];
    assert front[0] == chunks[0] && front[1..] == chunks[1..][..i];
    FitsFirst(front, given, lossy);
  }

  lemma {:induction false} CutInLater(chunks: seq<Chunk>, i: nat, p: nat)
    requires i < |chunks| && p >= Sent(chunks[0])
    ensures CutIn(chunks, i + 1, p) <==> CutIn(chunks[1..], i, p - Sent(chunks[0]))
  {
    StartLater(chunks, i);
    if i < |chunks| - 1 {
      EndsLater(chunks, i, p);
    }
  }

  lemma {:induction false} StallsLater(chunks: seq<Chunk>, p: nat, given: nat, lossy: Bytes -> Bytes)
    requires chunks != [] && p >= Sent(chunks[0]) && given + |chunks[0].data| <= MAX_PAYLOAD
    ensures StallsAt(chunks, p, given, lossy)
       <==> StallsAt(chunks[1..], p - Sent(chunks[0]), given + |lossy(chunks[0].data)|, lossy)
  {
    var q := p - Sent(chunks[0]);
    assert BehindData(chunks, 0, p) <==> q == 0;
    ReachesLater(chunks, 0, given, lossy);
    if i :| 0 <= i < |chunks| && BehindData(chunks, i, p) && Reaches(chunks, i + 1, given, lossy) {
      ReachesLater(chunks, i, given, lossy);
      if i > 0 { EndsLater(chunks, i - 1, p); }
    }
    var later, more := chunks[1..], given + |lossy(chunks[0].data)|;
    if i :| 0 <= i < |later| && BehindData(later, i, q) && Reaches(later, i + 1, more, lossy) {
      ReachesLater(chunks, i + 1, given, lossy);
      EndsLater(chunks, i, p);
    }
  }

  lemma {:induction false} CompleteLater(chunks: seq<Chunk>, p: nat, given: nat, lossy: Bytes -> Bytes)
    requires chunks != [] && p >= Sent(chunks[0]) && given + |chunks[0].data| <= MAX_PAYLOAD
    ensures CompleteAt(chunks, p, given, lossy)
       <==> CompleteAt(chunks[1..], p - Sent(chunks[0]), given + |lossy(chunks[0].data)|, lossy)
  {
    var q := p - Sent(chunks[0]);
    if i :| 0 <= i <= |chunks| && CutIn(chunks, i, p) && Reaches(chunks, i, given, lossy) {
      assert i > 0;
      CutInLater(chunks, i - 1, p);
      ReachesLater(chunks, i - 1, given, lossy);
    }
    var later, more := chunks[1..], given + |lossy(chunks[0].data)|;
    if i :| 0 <= i <= |later| && CutIn(later, i, q) && Reaches(later, i, more, lossy) {
      CutInLater(chunks, i, p);
      ReachesLater(chunks, i, given, lossy);
    }
  }

  lemma {:induction false} LaterStarts(chunks: seq<Chunk>, i: nat)
    requires 0 < i <= |chunks|
    ensures Start(chunks, i) >= Sent(chunks[0])
  {
    if i > 1 {
      LaterStarts(chunks, i - 1);
    }
  }

  /** What holds of a cut that the first chunk settles. */
  lemma {:induction false} SettledByFirst(chunks: seq<Chunk>, p: nat, given: nat, lossy: Bytes -> Bytes)
    requires chunks != [] && IsChunk(chunks[0])
    requires p < Sent(chunks[0]) || given + |chunks[0].data| > MAX_PAYLOAD
    ensures var c := chunks[0];
      && (StallsAt(chunks, p, given, lossy) <==>
            p == 0 || (|SizeLine(c)| + |c.data| <= p && given + |c.data| <= MAX_PAYLOAD))
      && (CompleteAt(chunks, p, given, lossy) <==> InZeros(chunks, 0, p))
  {
    var c := chunks[0];
    ReachesLater(chunks, 0, given, lossy);
    assert chunks[..0] == [] && chunks[1..][..0] == [];
    forall i | 1 <= i < |chunks| ensures !(BehindData(chunks, i, p) && Reaches(chunks, i + 1, given, lossy)) {
      LaterStarts(chunks, i);
      ReachesLater(chunks, i, given, lossy);
    }
    forall i | 1 <= i <= |chunks| ensures !(CutIn(chunks, i, p) && Reaches(chunks, i, given, lossy)) {
      LaterStarts(chunks, i);
      ReachesLater(chunks, i - 1, given, lossy);
    }
    assert BehindData(chunks, 0, p) <==> |SizeLine(c)| + |c.data| <= p <= Sent(c);
    assert CutIn(chunks, 0, p) <==> InZeros(chunks, 0, p);
    assert Reaches(chunks, 0, given, lossy);
  }

  /** In the size line of a chunk: complete exactly within leading zeros. */
  lemma {:induction false} ZerosInFirst(chunks: seq<Chunk>, p: nat)
    requires chunks != [] && IsChunk(chunks[0]) && 0 < p < |SizeLine(chunks[0])|
    ensures InZeros(chunks, 0, p) <==> HexValue(chunks[0].size[..Min(p, |chunks[0].size|)]) == 0
  {
    var c := chunks[0];
    var arrived := c.size[..Min(p, |c.size|)];
    ZeroMeansZeros(arrived);
    if p > |c.size| {
      assert arrived == c.size;
    }
  }

  /** The three ends of a cut stream. */
  ghost predicate EndsAs(r: Decoded, chunks: seq<Chunk>, p: nat, given: nat, lossy: Bytes -> Bytes) {
    && (r.Stalled? <==> StallsAt(chunks, p, given, lossy))
    && (r.Body? <==> CompleteAt(chunks, p, given, lossy))
    && (r.Failed? ==> r.reason != LineTooLong && (Fits(chunks, given, lossy) ==> r.reason == Truncated))
  }

  lemma {:induction false} FirstEnds(chunks: seq<Chunk>, p: nat, body: Bytes, lossy: Bytes -> Bytes)
    requires EndsInFirst(chunks, p, body) && IsChunk(chunks[0])
    ensures var r := CutOff(chunks, p, body, lossy);
      EndsAs(r, chunks, p, |body|, lossy) && (r.Body? ==> r.text == body && CutIn(chunks, 0, p))
  {
    SettledByFirst(chunks, p, |body|, lossy);
    FitsFirst(chunks, |body|, lossy);
    if 0 < p < |SizeLine(chunks[0])| {
      ZerosInFirst(chunks, p);
      HexPrefix(chunks[0].size, Min(p, |chunks[0].size|));
    }
  }

  lemma {:induction false} LaterEnds(r: Decoded, chunks: seq<Chunk>, p: nat, given: nat, lossy: Bytes -> Bytes)
    requires chunks != [] && p >= Sent(chunks[0]) && given + |chunks[0].data| <= MAX_PAYLOAD
    requires EndsAs(r, chunks[1..], p - Sent(chunks[0]), given + |lossy(chunks[0].data)|, lossy)
    ensures EndsAs(r, chunks, p, given, lossy)
  {
    FitsFirst(chunks, given, lossy);
    StallsLater(chunks, p, given, lossy);
    CompleteLater(chunks, p, given, lossy);
  }

  lemma {:induction false} CutOffEnds(chunks: seq<Chunk>, p: nat, body: Bytes, lossy: Bytes -> Bytes)
    requires forall i :: 0 <= i < |chunks| ==> IsChunk(chunks[i])
    ensures EndsAs(CutOff(chunks, p, body, lossy), chunks, p, |body|, lossy)
    decreases |chunks|
  {
    if chunks == [] {
      assert CutIn(chunks, 0, p) <==> p > 0;
      assert Reaches(chunks, 0, |body|, lossy);
    } else if EndsInFirst(chunks, p, body) {
      FirstEnds(chunks, p, body, lossy);
    } else {
      var c := chunks[0];
      CutOffEnds(chunks[1..], p - Sent(c), body + lossy(c.data), lossy);
      LaterEnds(CutOff(chunks[1..], p - Sent(c), body + lossy(c.data), lossy), chunks, p, |body|, lossy);
      CutOffLater(chunks, p, body, lossy);
    }
  }

  /** The text a cut response is taken for: that of the chunks before the one the cut is in. */
  lemma {:induction false} CutOffText(chunks: seq<Chunk>, p: nat, body: Bytes, lossy: Bytes -> Bytes) returns (i: nat)
    requires CutOff(chunks, p, body, lossy).Body? && forall k :: 0 <= k < |chunks| ==> IsChunk(chunks[k])
    ensures i <= |chunks| && CutIn(chunks, i, p)
    ensures CutOff(chunks, p, body, lossy).text == body + Text(chunks[..i], lossy)
    decreases |chunks|
  {
    i := 0;
    assert body + [] == body && chunks[..0] == [];
    if chunks != [] {
      if EndsInFirst(chunks, p, body) {
        FirstEnds(chunks, p, body, lossy);
      } else {
        var later, first := chunks[1..], lossy(chunks[0].data);
        CutOffLater(chunks, p, body, lossy);
        var j := CutOffText(later, p - Sent(chunks[0]), body + first, lossy);
        i := j + 1;
        CutInLater(chunks, j, p);
        assert chunks[..i][0] == chunks[0] && chunks[..i][1..] == later[..j];
        Regroup(body, first, Text(later[..j], lossy));
      }
    }
  }

  /**
    An engine that closes the stream early, anywhere in any well-formed response: the decoder idles for
    ever if and only if the stream ends at the start, or at most two bytes behind the data of a chunk that
    fits like all before it; it takes the body for complete if and only if part of the last chunk has
    arrived, or nothing but leading zeros of some chunk's size, and the chunks before fit; everywhere else
    it reports an error.
  */
  lemma {:induction false} WhereACutEnds(chunks: seq<Chunk>, last: Chunk, trailer: Bytes, p: nat, lossy: Bytes -> Bytes)
    returns (r: Decoded)
    requires IsLastChunk(last) && forall i :: 0 <= i < |chunks| ==> IsChunk(chunks[i])
    requires p <= |Encode(chunks, SizeLine(last) + trailer)|
    ensures r == Decode(Encode(chunks, SizeLine(last) + trailer)[..p], [], lossy)
    ensures r.Stalled? <==>
      p == 0 || exists i :: 0 <= i < |chunks| && BehindData(chunks, i, p) && Reaches(chunks, i + 1, 0, lossy)
    ensures r.Body? <==> exists i :: 0 <= i <= |chunks| && CutIn(chunks, i, p) && Reaches(chunks, i, 0, lossy)
    ensures r.Body? ==> exists i :: 0 <= i <= |chunks| && CutIn(chunks, i, p) && r.text == Text(chunks[..i], lossy)
    ensures r.Failed? ==> r.reason != LineTooLong && (Fits(chunks, 0, lossy) ==> r.reason == Truncated)
  {
    DecodesPrefix(chunks, last, trailer, p, [], lossy);
    r := CutOff(chunks, p, [], lossy);
    CutOffEnds(chunks, p, [], lossy);
    if r.Body? {
      var i := CutOffText(chunks, p, [], lossy);
      assert [] + Text(chunks[..i], lossy) == Text(chunks[..i], lossy);
    }
  }
}
