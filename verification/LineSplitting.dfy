/** Splitting a byte stream on newlines: what every framing loop of the daemon has to agree with. */
module LineSplitting {
  type Byte = x: int | 0 <= x < 256
  type Bytes = seq<Byte>

  const NEWLINE: Byte := 10

  /** Index of the first newline, or the length if there is none. */
  function FirstNewline(s: Bytes): (n: nat)
    ensures n <= |s|
    ensures forall i :: 0 <= i < n ==> s[i] != NEWLINE
    ensures n < |s| ==> s[n] == NEWLINE
  {
    if s == [] || s[0] == NEWLINE then 0 else 1 + FirstNewline(s[1..])
  }

  predicate NewlineFree(s: Bytes) {
    forall i :: 0 <= i < |s| ==> s[i] != NEWLINE
  }

  /** The newline-terminated lines of `s`, without their newlines. */
  function Lines(s: Bytes): seq<Bytes> {
    var n := FirstNewline(s);
    if n == |s| then [] else [s[..n]] + Lines(s[n + 1..])
  }

  /** What follows the last newline of `s`. */
  function Tail(s: Bytes): (t: Bytes)
    ensures NewlineFree(t) && |t| <= |s|
  {
    var n := FirstNewline(s);
    if n == |s| then s else Tail(s[n + 1..])
  }

  function Concat(chunks: seq<Bytes>): Bytes {
    if chunks == [] then [] else Concat(chunks[..|chunks| - 1]) + chunks[|chunks| - 1]
  }

  /** Each line followed by its newline, then the tail: the stream the lines came from. */
  function Unlines(lines: seq<Bytes>, tail: Bytes): Bytes {
    if lines == [] then tail else lines[0] + [NEWLINE] + Unlines(lines[1..], tail)
  }

  lemma FirstNewlineAt(s: Bytes, n: nat)
    requires n <= |s| && (forall i :: 0 <= i < n ==> s[i] != NEWLINE) && (n < |s| ==> s[n] == NEWLINE)
    ensures FirstNewline(s) == n
  {
  }

  lemma {:induction false} LinesNewlineFree(s: Bytes)
    ensures forall l :: l in Lines(s) ==> NewlineFree(l)
  {
    var n := FirstNewline(s);
    if n < |s| {
      LinesNewlineFree(s[n + 1..]);
    }
  }

  /** Splitting loses nothing: it is undone by joining, and it is the only newline-free split that is. */
  lemma {:induction false} SplitJoins(s: Bytes)
    ensures Unlines(Lines(s), Tail(s)) == s
    ensures forall l :: l in Lines(s) ==> NewlineFree(l)
  {
    LinesNewlineFree(s);
    var n := FirstNewline(s);
    if n < |s| {
      var first, rest := s[..n], s[n + 1..];
      SplitJoins(rest);
      UnlinesFirst(first, Lines(rest), Tail(rest));
      assert s == first + [NEWLINE] + rest;
    }
  }

  lemma UnlinesFirst(first: Bytes, lines: seq<Bytes>, tail: Bytes)
    ensures Unlines([first] + lines, tail) == first + [NEWLINE] + Unlines(lines, tail)
  {
    assert ([first] + lines)[1..] == lines;
  }

  lemma {:induction false} JoinSplits(lines: seq<Bytes>, tail: Bytes)
    requires NewlineFree(tail) && forall l :: l in lines ==> NewlineFree(l)
    ensures Lines(Unlines(lines, tail)) == lines && Tail(Unlines(lines, tail)) == tail
  {
    var s := Unlines(lines, tail);
    if lines == [] {
      FirstNewlineAt(s, |s|);
    } else {
      JoinSplits(lines[1..], tail);
      assert lines[0] in lines;
      FirstNewlineAt(s, |lines[0]|);
      assert s[..|lines[0]|] == lines[0] && s[|lines[0]| + 1..] == Unlines(lines[1..], tail);
    }
  }

  lemma Regroup<T>(a: seq<T>, b: seq<T>, c: seq<T>)
    ensures a + (b + c) == (a + b) + c
  {
  }

  lemma Slices<T>(a: seq<T>, b: seq<T>, n: nat)
    requires n < |a|
    ensures (a + b)[..n] == a[..n] && (a + b)[n + 1..] == a[n + 1..] + b
  {
  }

  /** Splitting a longer stream: the old lines stay, the tail is carried over. */
  lemma {:induction false} LinesAppend(a: Bytes, b: Bytes)
    ensures Lines(a + b) == Lines(a) + Lines(Tail(a) + b)
    ensures Tail(a + b) == Tail(Tail(a) + b)
    decreases |a|
  {
    var n := FirstNewline(a);
    if n == |a| {
      assert Lines(a) == [] && Tail(a) == a;
    } else {
      FirstNewlineAt(a + b, n);
      Slices(a, b, n);
      LinesAppend(a[n + 1..], b);
      Regroup([a[..n]], Lines(a[n + 1..]), Lines(Tail(a) + b));
    }
  }

  lemma TailOfNewlineFree(t: Bytes)
    requires NewlineFree(t)
    ensures Tail(t) == t && Lines(t) == []
  {
    FirstNewlineAt(t, |t|);
  }

  lemma ConcatAppend(chunks: seq<Bytes>, c: Bytes)
    ensures Concat(chunks + [c]) == Concat(chunks) + c
  {
    assert (chunks + [c])[..|chunks|] == chunks;
  }

  /** A newline-free prefix goes in front of the first line, or of the tail when there is no line. */
  lemma LinesBehindPrefix(t: Bytes, c: Bytes)
    requires NewlineFree(t)
    ensures Lines(c) == [] ==> Lines(t + c) == [] && Tail(t + c) == t + c && Tail(c) == c
    ensures Lines(c) != [] ==>
      Lines(t + c) == [t + Lines(c)[0]] + Lines(c)[1..] && Tail(t + c) == Tail(c)
  {
    var n := FirstNewline(c);
    FirstNewlineAt(t + c, |t| + n);
    if n < |c| {
      assert (t + c)[|t| + n + 1..] == c[n + 1..] && (t + c)[..|t| + n] == t + c[..n];
    }
  }

  /** How many lines the first `i` chunks complete. */
  function Completed(chunks: seq<Bytes>, i: nat): nat
    requires i <= |chunks|
  {
    |Lines(Concat(chunks[..i]))|
  }

  lemma {:induction false} CompletedGrows(chunks: seq<Bytes>, i: nat, j: nat)
    requires i <= j <= |chunks|
    ensures Completed(chunks, i) <= Completed(chunks, j)
    decreases j - i
  {
    if i < j {
      CompletedGrows(chunks, i, j - 1);
      assert chunks[..j][..j - 1] == chunks[..j - 1];
      LinesAppend(Concat(chunks[..j - 1]), chunks[j - 1]);
    }
  }

  lemma CompletedInFront(chunks: seq<Bytes>, n: nat, i: nat)
    requires i <= n <= |chunks|
    ensures Completed(chunks[..n], i) == Completed(chunks, i) && chunks[..n][..i] == chunks[..i]
  {
    assert chunks[..n][..i] == chunks[..i];
  }

  /** One chunk behind two unfinished lines: as many lines, and the same ones only if nothing is missing. */
  lemma ShorterResidue(r: Bytes, t: Bytes, chunk: Bytes)
    requires NewlineFree(r) && NewlineFree(t) && |r| <= |t|
    ensures |Lines(r + chunk)| == |Lines(t + chunk)| && |Tail(r + chunk)| <= |Tail(t + chunk)|
    ensures |r| < |t| && Lines(t + chunk) != [] ==> Lines(r + chunk) != Lines(t + chunk)
    ensures Lines(t + chunk) == [] ==> Tail(r + chunk) == r + chunk && Tail(t + chunk) == t + chunk
  {
    LinesBehindPrefix(r, chunk);
    LinesBehindPrefix(t, chunk);
    if Lines(chunk) != [] {
      assert |Lines(r + chunk)[0]| == |r| + |Lines(chunk)[0]|;
      assert |Lines(t + chunk)[0]| == |t| + |Lines(chunk)[0]|;
    }
  }

  lemma SplitEqual<T>(a: seq<T>, b: seq<T>, c: seq<T>, d: seq<T>)
    requires |a| <= |c| && |b| <= |d|
    ensures a + b == c + d <==> a == c && b == d
  {
    if a + b == c + d {
      assert |a + b| == |c + d|;
      assert (a + b)[..|a|] == a && (c + d)[..|c|] == c;
      assert (a + b)[|a|..] == b && (c + d)[|c|..] == d;
    }
  }

  lemma NextLine(s: Bytes, start: nat, n: nat)
    requires start <= |s| && n == FirstNewline(s[start..]) && n < |s| - start
    ensures Lines(s[start..]) == [s[start..start + n]] + Lines(s[start + n + 1..])
    ensures Tail(s[start..]) == Tail(s[start + n + 1..])
  {
    assert s[start..][..n] == s[start..start + n];
    assert s[start..][n + 1..] == s[start + n + 1..];
  }

  /** A scan that has found `found` and stands at index `start`. */
  ghost predicate Scanned(s: Bytes, found: seq<Bytes>, start: nat) {
    start <= |s| && Lines(s) == found + Lines(s[start..]) && Tail(s) == Tail(s[start..])
  }

  lemma ScanTurn(s: Bytes, found: seq<Bytes>, start: nat, n: nat)
    requires Scanned(s, found, start) && n == FirstNewline(s[start..]) && n < |s| - start
    ensures Scanned(s, found + [s[start..start + n]], start + n + 1)
  {
    NextLine(s, start, n);
    Regroup(found, [s[start..start + n]], Lines(s[start + n + 1..]));
  }

  /** The scan all framing loops share: the complete lines of a buffer and where its last line starts. */
  method Scan(s: Bytes) returns (found: seq<Bytes>, start: nat)
    ensures start <= |s|
    ensures found == Lines(s) && s[start..] == Tail(s)
  {
    found, start := [], 0;
    var n := FirstNewline(s);
    while n < |s| - start
      invariant Scanned(s, found, start) && n == FirstNewline(s[start..])
      decreases |s| - start
    {
      ScanTurn(s, found, start, n);
      found, start := found + [s[start..start + n]], start + n + 1;
      n := FirstNewline(s[start..]);
    }
  }
}
