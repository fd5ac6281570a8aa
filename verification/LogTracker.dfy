/** Following log files from poll to poll (src/ingestion.rs, the directory loop of `start_monitor_loop`). */
module LogTracker {
  import opened Wrappers
  import opened LineSplitting
  import opened FileTail

  datatype Descriptor = Descriptor(inode: int, position: nat)

  /**
    A listed log file as one sweep finds it: its inode, its length if the metadata can be read, its
    content if it can be opened, is owned by root and can be positioned, and whether the position can
    be told after the poll.
  */
  datatype Entry = Entry(path: string, inode: int, length: Option<nat>, content: Option<Bytes>, told: bool)

  /** What one poll read: the span of the file it covered, its reads, the candidate lines, and whether a read failed. */
  datatype PollRecord =
    PollRecord(content: Bytes, start: nat, end: nat, received: seq<Bytes>, candidates: seq<Bytes>, failed: bool)

  /** One pass over the directory: what was listed and what was read of it. */
  datatype SweepRecord = SweepRecord(entries: seq<Entry>, polls: seq<PollRecord>)

  /** A poll reads to the end of the file unless a read fails. */
  ghost predicate PollOk(p: PollRecord) {
    && p.start <= p.end && (p.end > p.start ==> p.end <= |p.content|)
    && (!p.failed ==> p.end == if p.start <= |p.content| then |p.content| else p.start)
    && Concat(p.received) == Span(p.content, p.start, p.end)
    && p.candidates == FeedAll(p.received).lines
  }

  /** Where a poll starts: where the last one ended, or at byte 0 for a new path or a new inode. */
  function StartOf(table: map<string, Descriptor>, path: string, inode: int): nat {
    if path in table && table[path].inode == inode then table[path].position else 0
  }

  /** What a visit of `e` does to the descriptor of its path. */
  ghost predicate Visited(before: map<string, Descriptor>, after: map<string, Descriptor>, e: Entry, firstRun: bool,
                          p: PollRecord) {
    if firstRun then
      && p.candidates == []
      && Same(after, if e.length.Some? then before[e.path := Descriptor(e.inode, e.length.value)] else before, e.path)
    else if e.content.None? then
      p.candidates == [] && Same(after, before, e.path)
    else
      && PollOk(p) && p.content == e.content.value && p.start == StartOf(before, e.path, e.inode)
      && if e.told then e.path in after && after[e.path] == Descriptor(e.inode, p.end) else Same(after, before, e.path)
  }

  ghost predicate Same(a: map<string, Descriptor>, b: map<string, Descriptor>, path: string) {
    (path in a <==> path in b) && (path in a ==> a[path] == b[path])
  }

  function Paths(entries: seq<Entry>): set<string> {
    set e | e in entries :: e.path
  }

  /** What a sweep does to the table: each listed file is visited, and what is no longer listed is forgotten. */
  ghost predicate Swept(before: map<string, Descriptor>, after: map<string, Descriptor>, firstRun: bool,
                        s: SweepRecord) {
    && |s.polls| == |s.entries|
    && after.Keys <= Paths(s.entries)
    && forall i :: 0 <= i < |s.entries| ==> Visited(before, after, s.entries[i], firstRun, s.polls[i])
  }

  class Tracker {
    var table: map<string, Descriptor>
    var firstRun: bool

    constructor ()
      ensures table == map[] && firstRun
    {
      table, firstRun := map[], true;
    }

    method Visit(e: Entry) returns (candidates: seq<Bytes>, ghost poll: PollRecord)
      modifies this`table
      ensures Visited(old(table), table, e, firstRun, poll) && candidates == poll.candidates
      ensures forall path :: path != e.path ==> Same(table, old(table), path)
    {
      candidates, poll := [], PollRecord([], 0, 0, [], [], false);
      if firstRun {
        if e.length.Some? {
          table := table[e.path := Descriptor(e.inode, e.length.value)];
        }
        return;
      }
      var start := StartOf(table, e.path, e.inode);
      if e.content.Some? {
        var file := new LogFile(e.content.value, start);
        ghost var received, failed;
        candidates, received, failed := Poll(file);
        if e.told {
          table := table[e.path := Descriptor(e.inode, file.position)];
        }
        poll := PollRecord(e.content.value, start, file.position, received, candidates, failed);
      }
    }

    /** One pass over the directory: every listed file is visited once, paths no longer listed are forgotten. */
    method Sweep(entries: seq<Entry>) returns (found: seq<seq<Bytes>>, ghost polls: seq<PollRecord>)
      requires forall i, j :: 0 <= i < j < |entries| ==> entries[i].path != entries[j].path
      modifies this
      ensures !firstRun && Swept(old(table), table, old(firstRun), SweepRecord(entries, polls))
      ensures |found| == |entries| && forall i :: 0 <= i < |entries| ==> found[i] == polls[i].candidates
    {
      found, polls := [], [];
      for i := 0 to |entries|
        invariant |found| == |polls| == i && firstRun == old(firstRun)
        invariant forall j :: i <= j < |entries| ==> Same(table, old(table), entries[j].path)
        invariant forall j :: 0 <= j < i ==>
          Visited(old(table), table, entries[j], firstRun, polls[j]) && found[j] == polls[j].candidates
      {
        ghost var before := table;
        var candidates;
        ghost var poll;
        candidates, poll := Visit(entries[i]);
        found, polls := found + [candidates], polls + [poll];
        forall j | 0 <= j < |entries| && j != i ensures Same(table, before, entries[j].path) {
          assert entries[j].path != entries[i].path;
        }
      }
      var seen := Paths(entries);
      ghost var full := table;
      table := map path | path in table && path in seen :: table[path];
      forall i | 0 <= i < |entries| ensures Visited(old(table), table, entries[i], firstRun, polls[i]) {
        assert entries[i].path in seen;
        assert Same(table, full, entries[i].path);
      }
      firstRun := false;
    }
  }

  // ---------------------------------------------------------------- a file over many polls

  /** `q` is the next poll of the same append-only file, under the same inode. */
  ghost predicate Follows(p: PollRecord, q: PollRecord) {
    q.start == p.end && p.content <= q.content
  }

  ghost predicate IsHistory(polls: seq<PollRecord>) {
    && polls != []
    && (forall i :: 0 <= i < |polls| ==> PollOk(polls[i]))
    && (forall i :: 0 <= i < |polls| - 1 ==> Follows(polls[i], polls[i + 1]))
  }

  function AllReceived(polls: seq<PollRecord>): Bytes {
    if polls == [] then [] else AllReceived(polls[..|polls| - 1]) + Concat(polls[|polls| - 1].received)
  }

  function AllCandidates(polls: seq<PollRecord>): seq<Bytes> {
    if polls == [] then [] else AllCandidates(polls[..|polls| - 1]) + polls[|polls| - 1].candidates
  }

  /**
    The polls of a history read adjacent spans: together, everything from the first start to the last end,
    which is nothing while the file is shorter than where the first starts.
  */
  lemma {:induction false} PollsTile(polls: seq<PollRecord>)
    requires IsHistory(polls)
    ensures var from, last := polls[0].start, polls[|polls| - 1];
      && from <= last.end && (last.end > from ==> last.end <= |last.content|)
      && AllReceived(polls) == Span(last.content, from, last.end)
  {
    var n := |polls| - 1;
    var first, last := polls[0], polls[n];
    assert PollOk(last);
    if n == 0 {
      assert polls[..0] == [];
      assert [] + Concat(last.received) == Concat(last.received);
    } else {
      PollsTile(polls[..n]);
      assert Follows(polls[n - 1], last);
      Widen(polls[n - 1].content, last.content, first.start, last.start, last.end);
    }
  }

  lemma Widen(a: Bytes, b: Bytes, from: nat, mid: nat, to: nat)
    requires a <= b && from <= mid <= to && (mid > from ==> mid <= |a|) && (to > mid ==> to <= |b|)
    ensures Span(b, from, to) == Span(a, from, mid) + Span(b, mid, to)
  {
  }

  // ---------------------------------------------------------------- lines over many polls

  /** Each line appears once, in order, as some suffix of itself. */
  ghost predicate SuffixEach(candidates: seq<Bytes>, lines: seq<Bytes>) {
    |candidates| == |lines| && forall i :: 0 <= i < |lines| ==> IsSuffix(candidates[i], lines[i])
  }

  lemma SuffixEachAppend(a: seq<Bytes>, b: seq<Bytes>, c: seq<Bytes>, d: seq<Bytes>)
    requires SuffixEach(a, b) && SuffixEach(c, d)
    ensures SuffixEach(a + c, b + d)
  {
  }

  lemma SuffixAcrossBoundary(candidates: seq<Bytes>, tail: Bytes, b: Bytes)
    requires SuffixEach(candidates, Lines(b)) && NewlineFree(tail)
    ensures SuffixEach(candidates, Lines(tail + b))
  {
    LinesBehindPrefix(tail, b);
    if Lines(b) == [] {
      assert Lines(tail + b) == [];
    } else {
      SuffixOfLonger(candidates[0], tail, Lines(b)[0]);
    }
  }

  lemma SuffixOfLonger(c: Bytes, tail: Bytes, l: Bytes)
    requires IsSuffix(c, l)
    ensures IsSuffix(c, tail + l)
  {
  }

  /**
    Wherever the polls fall, each line completed over the whole history yields exactly one candidate,
    a suffix of it.
  */
  lemma {:induction false} EachLineOnce(polls: seq<PollRecord>)
    requires forall i :: 0 <= i < |polls| ==> PollOk(polls[i])
    ensures SuffixEach(AllCandidates(polls), Lines(AllReceived(polls)))
  {
    if polls != [] {
      var n := |polls| - 1;
      var whole, received := AllReceived(polls[..n]), Concat(polls[n].received);
      EachLineOnce(polls[..n]);
      assert PollOk(polls[n]);
      FramesFaithfully(polls[n].received);
      SuffixAcrossBoundary(polls[n].candidates, Tail(whole), received);
      LinesAppend(whole, received);
      SuffixEachAppend(AllCandidates(polls[..n]), Lines(whole), polls[n].candidates, Lines(Tail(whole) + received));
    }
  }

  /**
    If every poll ends on a newline, the candidates over the whole history are the lines appended
    since its start, each intact unless it has 65536 bytes or more.
  */
  lemma {:induction false} AppendedLinesArrive(polls: seq<PollRecord>)
    requires forall i :: 0 <= i < |polls| ==> PollOk(polls[i]) && Tail(Concat(polls[i].received)) == []
    ensures Faithful(AllCandidates(polls), Lines(AllReceived(polls))) && Tail(AllReceived(polls)) == []
  {
    if polls != [] {
      var n := |polls| - 1;
      var whole, received := AllReceived(polls[..n]), Concat(polls[n].received);
      AppendedLinesArrive(polls[..n]);
      assert PollOk(polls[n]);
      FramesFaithfully(polls[n].received);
      LinesAppend(whole, received);
      assert [] + received == received;
      FaithfulAppend(AllCandidates(polls[..n]), Lines(whole), polls[n].candidates, Lines(received));
    }
  }

  // ---------------------------------------------------------------- exactly which lines arrive

  /**
    Dropping an unfinished line before a span leaves the span's lines as they are exactly if it was
    empty or the span completes no line.
  */
  lemma BoundaryExact(tail: Bytes, b: Bytes)
    requires NewlineFree(tail)
    ensures Lines(b) == Lines(tail + b) <==> tail == [] || Lines(b) == []
  {
    ShorterResidue([], tail, b);
    LinesBehindPrefix(tail, b);
    assert [] + b == b;
  }

  lemma FaithfulParts(a: seq<Bytes>, b: seq<Bytes>, c: seq<Bytes>, d: seq<Bytes>)
    requires |a| == |b| && |c| == |d|
    ensures Faithful(a + c, b + d) <==> Faithful(a, b) && Faithful(c, d)
  {
    if Faithful(a + c, b + d) {
      forall i | 0 <= i < |b|
        ensures IsSuffix(a[i], b[i]) && (|b[i]| < MAX_LINE_SIZE ==> a[i] == b[i])
      {
        assert (a + c)[i] == a[i] && (b + d)[i] == b[i];
      }
      forall i | 0 <= i < |d|
        ensures IsSuffix(c[i], d[i]) && (|d[i]| < MAX_LINE_SIZE ==> c[i] == d[i])
      {
        assert (a + c)[|a| + i] == c[i] && (b + d)[|b| + i] == d[i];
      }
    }
  }

  /** The poll completes the line that was unfinished before it, and that line has fewer than 65536 bytes. */
  predicate CutsShortLine(tail: Bytes, received: Bytes) {
    tail != [] && Lines(received) != [] && |tail + Lines(received)[0]| < MAX_LINE_SIZE
  }

  lemma FaithfulBoundary(candidates: seq<Bytes>, tail: Bytes, received: Bytes)
    requires Faithful(candidates, Lines(received)) && NewlineFree(tail)
    ensures |candidates| == |Lines(tail + received)|
    ensures Faithful(candidates, Lines(tail + received)) <==> !CutsShortLine(tail, received)
  {
    var lines := Lines(received);
    LinesBehindPrefix(tail, received);
    if lines != [] {
      var c, l, rest := candidates[0], lines[0], lines[1..];
      assert candidates == [c] + candidates[1..] && lines == [l] + rest;
      FaithfulParts([c], [l], candidates[1..], rest);
      FaithfulParts([c], [tail + l], candidates[1..], rest);
      FirstFaithful(c, tail, l);
    }
  }

  lemma FirstFaithful(c: Bytes, tail: Bytes, l: Bytes)
    requires Faithful([c], [l])
    ensures Faithful([c], [tail + l]) <==> tail == [] || |tail + l| >= MAX_LINE_SIZE
  {
    assert IsSuffix([c][0], [l][0]);
    SuffixOfLonger(c, tail, l);
    if tail == [] {
      assert tail + l == l;
    } else {
      assert |c| < |tail + l|;
    }
  }

  /** Poll `i` begins inside a short line that it completes. */
  ghost predicate CutsAt(polls: seq<PollRecord>, i: nat)
    requires i < |polls|
  {
    CutsShortLine(Tail(AllReceived(polls[..i])), Concat(polls[i].received))
  }

  ghost predicate CutsLongLinesOnly(polls: seq<PollRecord>) {
    forall i :: 0 <= i < |polls| ==> !CutsAt(polls, i)
  }

  lemma CutsInFront(polls: seq<PollRecord>, n: nat, i: nat)
    requires i < n <= |polls|
    ensures CutsAt(polls[..n], i) <==> CutsAt(polls, i)
    ensures IntactAt(polls[..n], i) <==> IntactAt(polls, i)
  {
    assert polls[..n][..i] == polls[..i];
  }

  lemma CutsLongLinesOnlyStep(polls: seq<PollRecord>)
    requires polls != []
    ensures CutsLongLinesOnly(polls) <==> CutsLongLinesOnly(polls[..|polls| - 1]) && !CutsAt(polls, |polls| - 1)
  {
    var n := |polls| - 1;
    forall i: nat | i < n ensures CutsAt(polls[..n], i) <==> CutsAt(polls, i) {
      CutsInFront(polls, n, i);
    }
  }

  /**
    The code does not carry an unfinished line from one poll to the next. The candidates of any
    history are faithful to its lines if and only if no poll begins inside a line of fewer than 65536
    bytes that it completes.
  */
  lemma {:induction false} ShortLinesIntact(polls: seq<PollRecord>)
    requires forall i :: 0 <= i < |polls| ==> PollOk(polls[i])
    ensures Faithful(AllCandidates(polls), Lines(AllReceived(polls))) <==> CutsLongLinesOnly(polls)
  {
    if polls != [] {
      var n := |polls| - 1;
      var whole, received := AllReceived(polls[..n]), Concat(polls[n].received);
      ShortLinesIntact(polls[..n]);
      EachLineOnce(polls[..n]);
      assert PollOk(polls[n]);
      FramesFaithfully(polls[n].received);
      LinesAppend(whole, received);
      FaithfulBoundary(polls[n].candidates, Tail(whole), received);
      FaithfulParts(AllCandidates(polls[..n]), Lines(whole), polls[n].candidates, Lines(Tail(whole) + received));
      CutsLongLinesOnlyStep(polls);
    }
  }

  /** Poll `i` begins at the start of a line or completes none, and its own buffer cuts nothing. */
  ghost predicate IntactAt(polls: seq<PollRecord>, i: nat)
    requires i < |polls|
  {
    && (Tail(AllReceived(polls[..i])) == [] || Lines(Concat(polls[i].received)) == [])
    && FlushesLate(polls[i].received)
  }

  ghost predicate CutsNothing(polls: seq<PollRecord>) {
    forall i :: 0 <= i < |polls| ==> IntactAt(polls, i)
  }

  lemma CutsNothingStep(polls: seq<PollRecord>)
    requires polls != []
    ensures CutsNothing(polls) <==> CutsNothing(polls[..|polls| - 1]) && IntactAt(polls, |polls| - 1)
  {
    var n := |polls| - 1;
    forall i: nat | i < n ensures IntactAt(polls[..n], i) <==> IntactAt(polls, i) {
      CutsInFront(polls, n, i);
    }
  }

  lemma ExactBoundary(candidates: seq<Bytes>, tail: Bytes, received: Bytes)
    requires SuffixEach(candidates, Lines(received)) && NewlineFree(tail)
    ensures |candidates| == |Lines(tail + received)|
    ensures candidates == Lines(tail + received) <==>
      candidates == Lines(received) && (tail == [] || Lines(received) == [])
  {
    LinesBehindPrefix(tail, received);
    BoundaryExact(tail, received);
    if Lines(received) != [] && candidates == Lines(tail + received) {
      assert |candidates[0]| == |tail| + |Lines(received)[0]| <= |Lines(received)[0]|;
    }
  }

  /** The candidates of any history are exactly its lines, long ones included, if and only if nothing is cut. */
  lemma {:induction false} AllLinesIntact(polls: seq<PollRecord>)
    requires forall i :: 0 <= i < |polls| ==> PollOk(polls[i])
    ensures AllCandidates(polls) == Lines(AllReceived(polls)) <==> CutsNothing(polls)
  {
    if polls != [] {
      var n := |polls| - 1;
      var whole, received := AllReceived(polls[..n]), Concat(polls[n].received);
      AllLinesIntact(polls[..n]);
      EachLineOnce(polls[..n]);
      assert PollOk(polls[n]);
      FramesFaithfully(polls[n].received);
      FlushedExactly(polls[n].received);
      LinesAppend(whole, received);
      ExactBoundary(polls[n].candidates, Tail(whole), received);
      SplitEqual(AllCandidates(polls[..n]), polls[n].candidates, Lines(whole), Lines(Tail(whole) + received));
      CutsNothingStep(polls);
    }
  }

  // ---------------------------------------------------------------- a line that is cut

  const LETTER: Bytes := [97]

  /** Two polls of a file that comes to hold one line: the first finds it unfinished. */
  const UNFINISHED := PollRecord(LETTER, 0, 1, [LETTER], [], false)
  const FINISHED := PollRecord(LETTER + [NEWLINE], 1, 2, [[NEWLINE]], [[]], false)

  /** A line of one byte that two polls cut: it arrives without it. */
  lemma ShortLineCut()
    ensures IsHistory([UNFINISHED, FINISHED])
    ensures Lines(AllReceived([UNFINISHED, FINISHED])) == [LETTER]
    ensures AllCandidates([UNFINISHED, FINISHED]) == [[]]
  {
    TwoPolls(UNFINISHED, FINISHED);
    UnfinishedPoll();
    FinishedPoll();
    assert Follows(UNFINISHED, FINISHED);
    LineAlone(LETTER);
  }

  lemma UnfinishedPoll()
    ensures PollOk(UNFINISHED) && Concat(UNFINISHED.received) == LETTER
  {
    OneRead(LETTER);
    TailOfNewlineFree(LETTER);
  }

  lemma FinishedPoll()
    ensures PollOk(FINISHED) && Concat(FINISHED.received) == [NEWLINE]
  {
    OneRead([NEWLINE]);
    LineAlone([]);
    assert [] + [NEWLINE] == [NEWLINE];
    assert (LETTER + [NEWLINE])[1..2] == [NEWLINE];
  }

  lemma OneRead(chunk: Bytes)
    requires |Tail(chunk)| < MAX_LINE_SIZE
    ensures Concat([chunk]) == chunk && FeedAll([chunk]).lines == Lines(chunk)
  {
    FeedMore([], chunk);
    assert [] + chunk == chunk && [] + [chunk] == [chunk] && [] + Lines(chunk) == Lines(chunk);
  }

  lemma OneMorePoll(polls: seq<PollRecord>, p: PollRecord)
    ensures AllReceived(polls + [p]) == AllReceived(polls) + Concat(p.received)
    ensures AllCandidates(polls + [p]) == AllCandidates(polls) + p.candidates
  {
    assert (polls + [p])[..|polls|] == polls;
  }

  lemma TwoPolls(p: PollRecord, q: PollRecord)
    ensures AllReceived([p, q]) == Concat(p.received) + Concat(q.received)
    ensures AllCandidates([p, q]) == p.candidates + q.candidates
  {
    OneMorePoll([], p);
    OneMorePoll([p], q);
    assert [] + [p] == [p] && [p] + [q] == [p, q];
    assert [] + Concat(p.received) == Concat(p.received) && [] + p.candidates == p.candidates;
  }
}
