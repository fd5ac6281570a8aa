/** Buffered reading of an HTTP response body (src/worker.rs, `read_bounded_line` and the body reader). */
module HttpReader {
  import opened Wrappers
  import opened LineSplitting

  function Join(parts: seq<Bytes>): Bytes {
    if parts == [] then [] else parts[0] + Join(parts[1..])
  }

  function Min(a: nat, b: nat): (m: nat)
    ensures m <= a && m <= b && (m == a || m == b)
  {
    if a < b then a else b
  }

  /** Length of the first line of `s` with its newline, cut off at `limit` bytes or at the end of `s`. */
  function LineLength(s: Bytes, limit: nat): (n: nat)
    ensures n <= limit && n <= |s|
    ensures forall i :: 0 <= i < n - 1 ==> s[i] != NEWLINE
    ensures n == limit || n == |s| || (n > 0 && s[n - 1] == NEWLINE)
  {
    var m := Min(limit, |s|);
    var n := FirstNewline(s[..m]);
    if n < m then n + 1 else m
  }

  predicate EndsLine(line: Bytes) {
    line != [] && line[|line| - 1] == NEWLINE
  }

  lemma LineLengthAt(s: Bytes, limit: nat, n: nat)
    requires n < limit && n < |s| && s[n] == NEWLINE && forall i :: 0 <= i < n ==> s[i] != NEWLINE
    ensures LineLength(s, limit) == n + 1
  {
    FirstNewlineAt(s[..Min(limit, |s|)], n);
  }

  /**
    A buffered reader over the bytes left over from the header read, followed by the socket. `held` is
    the buffer's content, `arrivals` are the byte strings further reads of the source will return,
    none of them empty; after the last the source is at its end.
  */
  class Reader {
    var held: Bytes
    var arrivals: seq<Bytes>

    /** Everything that is still to come. */
    function Contents(): Bytes
      reads this
    {
      held + Join(arrivals)
    }

    ghost predicate Valid()
      reads this
    {
      forall i :: 0 <= i < |arrivals| ==> arrivals[i] != []
    }

    constructor (leftover: Bytes, arrivals: seq<Bytes>)
      requires forall i :: 0 <= i < |arrivals| ==> arrivals[i] != []
      ensures Valid() && Contents() == leftover + Join(arrivals)
    {
      this.held, this.arrivals := leftover, arrivals;
    }

    /** Fetches more if nothing is held. */
    method Fill()
      requires Valid()
      modifies this
      ensures Valid() && Contents() == old(Contents())
      ensures held == [] ==> Contents() == []
    {
      if held == [] && arrivals != [] {
        held, arrivals := arrivals[0], arrivals[1..];
      }
    }

    method Consume(n: nat)
      requires Valid() && n <= |held|
      modifies this
      ensures Valid() && Contents() == old(Contents())[n..]
    {
      held := held[n..];
    }

    /** `take(limit).read_until('\n')`: reads a line piece by piece, whatever the pieces are. */
    method ReadLine(limit: nat) returns (line: Bytes)
      requires Valid()
      modifies this
      ensures Valid()
      ensures line == old(Contents())[..LineLength(old(Contents()), limit)]
      ensures Contents() == old(Contents())[|line|..]
    {
      line := [];
      ghost var all := Contents();
      while |line| < limit && !EndsLine(line)
        invariant Valid() && |line| <= limit && |line| <= |all|
        invariant line == all[..|line|] && Contents() == all[|line|..]
        invariant forall i :: 0 <= i < |line| - 1 ==> line[i] != NEWLINE
        decreases limit - |line|
      {
        Fill();
        if held == [] {
          break;
        }
        var piece := held[..LineLength(held, limit - |line|)];
        PieceOfLine(held, limit - |line|);
        Advance(all, |line|, held, Join(arrivals), |piece|);
        Consume(|piece|);
        line := line + piece;
      }
      WholeLine(all, limit, |line|);
    }

    lemma Advance(all: Bytes, done: nat, held: Bytes, later: Bytes, n: nat)
      requires done <= |all| && all[done..] == held + later && n <= |held|
      ensures done + n <= |all|
      ensures all[..done] + held[..n] == all[..done + n] && (held + later)[n..] == all[done + n..]
    {
      assert (held + later)[..n] == held[..n];
      assert all == all[..done] + all[done..];
    }

    lemma PieceOfLine(s: Bytes, limit: nat)
      requires s != [] && limit > 0
      ensures LineLength(s, limit) > 0
      ensures forall i :: 0 <= i < LineLength(s, limit) - 1 ==> s[i] != NEWLINE
    {
    }

    lemma WholeLine(s: Bytes, limit: nat, n: nat)
      requires n <= limit && n <= |s| && (n == limit || n == |s| || EndsLine(s[..n]))
      requires forall i :: 0 <= i < n - 1 ==> s[i] != NEWLINE
      ensures LineLength(s, limit) == n
    {
      if EndsLine(s[..n]) {
        LineLengthAt(s, limit, n - 1);
      } else {
        FirstNewlineAt(s[..n], n);
        assert s[..Min(limit, |s|)] == s[..n];
      }
    }

    /** `read_exact`: `n` bytes, or a failure that has read all there was. */
    method ReadExact(n: nat) returns (ok: bool, data: Bytes)
      requires Valid()
      modifies this
      ensures Valid() && (ok <==> n <= |old(Contents())|)
      ensures data == old(Contents())[..Min(n, |old(Contents())|)]
      ensures Contents() == old(Contents())[|data|..]
    {
      data := [];
      ghost var all := Contents();
      while |data| < n
        invariant Valid() && |data| <= n && |data| <= |all|
        invariant data == all[..|data|] && Contents() == all[|data|..]
        decreases n - |data|
      {
        Fill();
        if held == [] {
          assert all[|data|..] == [] && |data| == |all|;
          return false, data;
        }
        var piece := held[..Min(|held|, n - |data|)];
        Advance(all, |data|, held, Join(arrivals), |piece|);
        Consume(|piece|);
        data := data + piece;
      }
      ok := true;
    }

    /** A line of at most `limit` bytes; longer ones fail, and the end of the stream reads as an empty line. */
    method ReadBoundedLine(limit: nat) returns (r: Result<Bytes, ()>)
      requires Valid() && limit > 0
      modifies this
      ensures Valid()
      ensures var n := LineLength(old(Contents()), limit);
        && Contents() == old(Contents())[n..]
        && var line := old(Contents())[..n];
           r == if n == limit && !EndsLine(line) then Failure(()) else Success(line)
    {
      var line := ReadLine(limit);
      r := if |line| == limit && !EndsLine(line) then Failure(()) else Success(line);
    }
  }
}
