/**
  Runs of sweeps (src/ingestion.rs, the directory loop of `start_monitor_loop`): what becomes of one log
  file, from the first run on or from whenever it appears, is rotated or is truncated.
*/
module LogRuns {
  import opened Wrappers
  import opened LineSplitting
  import opened FileTail
  import opened LogTracker

  /** The tables a run of sweeps goes through; the first sweep is the first run. */
  ghost predicate IsRun(sweeps: seq<SweepRecord>, tables: seq<map<string, Descriptor>>) {
    && |tables| == |sweeps| + 1 && tables[0] == map[]
    && forall i :: 0 <= i < |sweeps| ==> SweepAt(sweeps, tables, i)
  }

  ghost predicate SweepAt(sweeps: seq<SweepRecord>, tables: seq<map<string, Descriptor>>, i: nat)
    requires i < |sweeps| == |tables| - 1
  {
    Swept(tables[i], tables[i + 1], i == 0, sweeps[i])
  }

  /** A file under one path and inode, from sweep `from` on; `at[i]` is its entry in sweep `i`. */
  datatype Watch = Watch(path: string, inode: int, from: nat, at: seq<nat>)

  predicate ListedAt(s: SweepRecord, k: nat, path: string, inode: int) {
    k < |s.entries| == |s.polls| && s.entries[k].path == path && s.entries[k].inode == inode
  }

  predicate IsListed(sweeps: seq<SweepRecord>, w: Watch) {
    && 1 <= w.from <= |sweeps| == |w.at|
    && forall i :: w.from <= i < |sweeps| ==> ListedAt(sweeps[i], w.at[i], w.path, w.inode)
  }

  /** The file's content in sweep `i`, if it can be read there. */
  function ContentAt(sweeps: seq<SweepRecord>, w: Watch, i: nat): Option<Bytes>
    requires IsListed(sweeps, w) && w.from <= i < |sweeps|
  {
    sweeps[i].entries[w.at[i]].content
  }

  /**
    The file is only appended to from sweep `from` on, and each poll can tell its position. It need not
    open in every sweep, and it may begin shorter than what was read before, when it has been truncated.
  */
  ghost predicate IsAppended(sweeps: seq<SweepRecord>, w: Watch) {
    && IsListed(sweeps, w)
    && forall i, j :: w.from <= i <= j < |sweeps| ==> AppendedTo(sweeps, w, i, j)
  }

  ghost predicate AppendedTo(sweeps: seq<SweepRecord>, w: Watch, i: nat, j: nat)
    requires IsListed(sweeps, w) && w.from <= i <= j < |sweeps|
  {
    var a, b := ContentAt(sweeps, w, i), ContentAt(sweeps, w, j);
    (a.Some? ==> sweeps[i].entries[w.at[i]].told) && (a.Some? && b.Some? ==> a.value <= b.value)
  }

  /** The polls of the file before sweep `n`. */
  function PollsOf(sweeps: seq<SweepRecord>, w: Watch, n: nat): seq<PollRecord>
    requires IsListed(sweeps, w) && w.from <= n <= |sweeps|
    decreases n
  {
    if n == w.from then []
    else
      var earlier := PollsOf(sweeps, w, n - 1);
      if ContentAt(sweeps, w, n - 1).Some? then earlier + [sweeps[n - 1].polls[w.at[n - 1]]] else earlier
  }

  // ---------------------------------------------------------------- where reading starts

  /** Where reading of the file starts. */
  function First(tables: seq<map<string, Descriptor>>, w: Watch): nat
    requires w.from < |tables|
  {
    StartOf(tables[w.from], w.path, w.inode)
  }

  /** At its first-run length, if the first run has listed it under this inode. */
  lemma StartsAtFirstLength(sweeps: seq<SweepRecord>, tables: seq<map<string, Descriptor>>, w: Watch, k: nat)
    requires IsRun(sweeps, tables) && IsListed(sweeps, w) && w.from == 1
    requires k < |sweeps[0].entries| && sweeps[0].entries[k].path == w.path && sweeps[0].entries[k].inode == w.inode
    requires sweeps[0].entries[k].length.Some?
    ensures First(tables, w) == sweeps[0].entries[k].length.value
  {
    assert SweepAt(sweeps, tables, 0);
    assert Visited(tables[0], tables[1], sweeps[0].entries[k], true, sweeps[0].polls[k]);
  }

  /** At byte 0, if the sweep before has not listed the path or the table knows it under another inode. */
  lemma StartsAtZero(sweeps: seq<SweepRecord>, tables: seq<map<string, Descriptor>>, w: Watch)
    requires IsRun(sweeps, tables) && IsListed(sweeps, w)
    requires w.path !in Paths(sweeps[w.from - 1].entries)
          || (w.path in tables[w.from] && tables[w.from][w.path].inode != w.inode)
    ensures First(tables, w) == 0
  {
    assert SweepAt(sweeps, tables, w.from - 1);
  }

  /** Where the last poll started, if that could not tell its position: its bytes are read again. */
  lemma StartsAgain(sweeps: seq<SweepRecord>, tables: seq<map<string, Descriptor>>, w: Watch, k: nat)
    requires IsRun(sweeps, tables) && IsListed(sweeps, w) && w.from > 1
    requires ListedAt(sweeps[w.from - 1], k, w.path, w.inode)
    requires sweeps[w.from - 1].entries[k].content.Some? && !sweeps[w.from - 1].entries[k].told
    ensures First(tables, w) == sweeps[w.from - 1].polls[k].start
  {
    var n := w.from - 1;
    assert SweepAt(sweeps, tables, n);
    assert Visited(tables[n], tables[n + 1], sweeps[n].entries[k], false, sweeps[n].polls[k]);
  }

  // ---------------------------------------------------------------- the polls of a run

  /** Where the file has been read to after some polls. */
  function ReadTo(first: nat, polls: seq<PollRecord>): nat {
    if polls == [] then first else polls[|polls| - 1].end
  }

  /** The polls so far form a history, and the table says where it has read to. */
  ghost predicate Tracks(polls: seq<PollRecord>, table: map<string, Descriptor>, path: string, inode: int, first: nat) {
    && StartOf(table, path, inode) == ReadTo(first, polls)
    && (polls != [] ==> IsHistory(polls) && polls[0].start == first)
  }

  lemma HistoryGrows(polls: seq<PollRecord>, p: PollRecord, first: nat)
    requires PollOk(p) && p.start == ReadTo(first, polls)
    requires polls != [] ==> IsHistory(polls) && polls[0].start == first && polls[|polls| - 1].content <= p.content
    ensures IsHistory(polls + [p]) && (polls + [p])[0].start == first
  {
    var longer := polls + [p];
    forall i | 0 <= i < |longer| - 1 ensures Follows(longer[i], longer[i + 1]) {
      if i + 1 < |polls| {
        assert Follows(polls[i], polls[i + 1]);
      }
    }
  }

  lemma TrackSweep(polls: seq<PollRecord>, before: map<string, Descriptor>, after: map<string, Descriptor>,
                   e: Entry, p: PollRecord, first: nat)
    requires Tracks(polls, before, e.path, e.inode, first) && Visited(before, after, e, false, p)
    requires e.content.Some? ==> e.told
    requires e.content.Some? && polls != [] ==> polls[|polls| - 1].content <= e.content.value
    ensures Tracks(if e.content.Some? then polls + [p] else polls, after, e.path, e.inode, first)
  {
    if e.content.Some? {
      HistoryGrows(polls, p, first);
    }
  }

  lemma SweepVisits(sweeps: seq<SweepRecord>, tables: seq<map<string, Descriptor>>, w: Watch, n: nat)
    requires IsRun(sweeps, tables) && IsListed(sweeps, w) && w.from <= n < |sweeps|
    ensures w.at[n] < |sweeps[n].entries| == |sweeps[n].polls|
    ensures var e := sweeps[n].entries[w.at[n]];
      && e.path == w.path && e.inode == w.inode
      && Visited(tables[n], tables[n + 1], e, false, sweeps[n].polls[w.at[n]])
  {
    assert SweepAt(sweeps, tables, n);
    assert ListedAt(sweeps[n], w.at[n], w.path, w.inode);
  }

  lemma PollReadsContent(sweeps: seq<SweepRecord>, tables: seq<map<string, Descriptor>>, w: Watch, n: nat)
    requires IsRun(sweeps, tables) && IsListed(sweeps, w) && w.from <= n < |sweeps| && ContentAt(sweeps, w, n).Some?
    ensures w.at[n] < |sweeps[n].polls| && sweeps[n].polls[w.at[n]].content == ContentAt(sweeps, w, n).value
  {
    SweepVisits(sweeps, tables, w, n);
  }

  /** Whatever the file holds in a later sweep extends what its last poll read from. */
  lemma {:induction false} LastPollPrecedes(sweeps: seq<SweepRecord>, tables: seq<map<string, Descriptor>>, w: Watch,
                                            n: nat, j: nat)
    requires IsRun(sweeps, tables) && IsAppended(sweeps, w) && w.from <= n <= j < |sweeps|
    requires PollsOf(sweeps, w, n) != [] && ContentAt(sweeps, w, j).Some?
    ensures var polls := PollsOf(sweeps, w, n); polls[|polls| - 1].content <= ContentAt(sweeps, w, j).value
    decreases n
  {
    if ContentAt(sweeps, w, n - 1).Some? {
      PollReadsContent(sweeps, tables, w, n - 1);
      assert AppendedTo(sweeps, w, n - 1, j);
    } else {
      LastPollPrecedes(sweeps, tables, w, n - 1, j);
    }
  }

  lemma {:induction false} RunTracks(sweeps: seq<SweepRecord>, tables: seq<map<string, Descriptor>>, w: Watch, n: nat)
    requires IsRun(sweeps, tables) && IsAppended(sweeps, w) && w.from <= n <= |sweeps|
    ensures Tracks(PollsOf(sweeps, w, n), tables[n], w.path, w.inode, First(tables, w))
    decreases n
  {
    if n > w.from {
      var m := n - 1;
      var e, p, polls := sweeps[m].entries[w.at[m]], sweeps[m].polls[w.at[m]], PollsOf(sweeps, w, m);
      SweepVisits(sweeps, tables, w, m);
      RunTracks(sweeps, tables, w, m);
      assert ContentAt(sweeps, w, m) == e.content;
      if e.content.Some? {
        assert AppendedTo(sweeps, w, m, m);
        if polls != [] { LastPollPrecedes(sweeps, tables, w, m, m); }
      }
      TrackSweep(polls, tables[m], tables[n], e, p, First(tables, w));
    }
  }

  // ---------------------------------------------------------------- what a run delivers

  /**
    Over any run of sweeps, from any sweep on, a file that stays listed and is only appended to is read
    in adjacent polls from where reading starts: one candidate for each line of what they read, all the
    short lines intact if and only if no poll begins inside one that it completes, all lines intact if
    and only if nothing is cut. Nothing before the start is ever read, not even of a truncated file.
  */
  lemma RunDeliversAppended(sweeps: seq<SweepRecord>, tables: seq<map<string, Descriptor>>, w: Watch)
    requires IsRun(sweeps, tables) && IsAppended(sweeps, w)
    requires PollsOf(sweeps, w, |sweeps|) != []
    ensures var polls := PollsOf(sweeps, w, |sweeps|);
      var first, last := First(tables, w), polls[|polls| - 1];
      && first <= last.end && (last.end > first ==> last.end <= |last.content|)
      && StartOf(tables[|sweeps|], w.path, w.inode) == last.end
      && var appended := Span(last.content, first, last.end);
      && AllReceived(polls) == appended
      && SuffixEach(AllCandidates(polls), Lines(appended))
      && (Faithful(AllCandidates(polls), Lines(appended)) <==> CutsLongLinesOnly(polls))
      && (AllCandidates(polls) == Lines(appended) <==> CutsNothing(polls))
  {
    var polls := PollsOf(sweeps, w, |sweeps|);
    RunTracks(sweeps, tables, w, |sweeps|);
    PollsTile(polls);
    EachLineOnce(polls);
    ShortLinesIntact(polls);
    AllLinesIntact(polls);
  }

  /** In particular, if every poll ends on a newline, every short line read arrives intact, once, in order. */
  lemma TailerDeliversAppended(sweeps: seq<SweepRecord>, tables: seq<map<string, Descriptor>>, w: Watch)
    requires IsRun(sweeps, tables) && IsAppended(sweeps, w)
    requires PollsOf(sweeps, w, |sweeps|) != []
    requires forall p :: p in PollsOf(sweeps, w, |sweeps|) ==> Tail(Concat(p.received)) == []
    ensures var polls := PollsOf(sweeps, w, |sweeps|);
      var last := polls[|polls| - 1];
      Faithful(AllCandidates(polls), Lines(Span(last.content, First(tables, w), last.end)))
  {
    RunTracks(sweeps, tables, w, |sweeps|);
    PollsTile(PollsOf(sweeps, w, |sweeps|));
    AppendedLinesArrive(PollsOf(sweeps, w, |sweeps|));
  }

  lemma {:induction false} NeverBehindStart(polls: seq<PollRecord>)
    requires IsHistory(polls)
    ensures var from, last := polls[0].start, polls[|polls| - 1];
      from <= last.start && (last.start > from ==> last.start <= |last.content|)
  {
    var n := |polls| - 1;
    if n > 0 {
      PollsTile(polls[..n]);
      assert Follows(polls[n - 1], polls[n]);
    }
  }

  lemma {:induction false} ReadsAll(polls: seq<PollRecord>)
    requires IsHistory(polls) && !polls[|polls| - 1].failed
    ensures var first, last := polls[0].start, polls[|polls| - 1];
      AllReceived(polls) == if first <= |last.content| then last.content[first..] else []
  {
    PollsTile(polls);
    NeverBehindStart(polls);
    assert PollOk(polls[|polls| - 1]);
  }

  /** If the last poll met no read error, nothing of what it found behind the start is left unread. */
  lemma NothingLeftUnread(sweeps: seq<SweepRecord>, tables: seq<map<string, Descriptor>>, w: Watch)
    requires IsRun(sweeps, tables) && IsAppended(sweeps, w)
    requires PollsOf(sweeps, w, |sweeps|) != []
    ensures var polls := PollsOf(sweeps, w, |sweeps|);
      var first, last := First(tables, w), polls[|polls| - 1];
      !last.failed ==> AllReceived(polls) == if first <= |last.content| then last.content[first..] else []
  {
    var polls := PollsOf(sweeps, w, |sweeps|);
    RunTracks(sweeps, tables, w, |sweeps|);
    if !polls[|polls| - 1].failed {
      ReadsAll(polls);
    }
  }
}
