/** Runs of the socket server: tokens, and what becomes of a connection from its admission on. */
module UdsConnections {
  import opened Wrappers
  import opened LineSplitting
  import opened UdsFraming
  import opened UdsServer
  import opened UdsServerRuns

  // ---------------------------------------------------------------- tokens

  /** Two connections share a token exactly if a multiple of a million tokens were given out between them. */
  lemma {:induction false} TokensRepeat(j: nat, k: nat)
    requires j <= k
    ensures TokenAt(j) == TokenAt(k) <==> (k - j) % LAST_TOKEN == 0
  {
    var qj, qk := j / LAST_TOKEN, k / LAST_TOKEN;
    assert k - j == (qk - qj) * LAST_TOKEN + (k % LAST_TOKEN - j % LAST_TOKEN);
  }

  /** Every pooled connection took its token less than a million tokens ago. */
  ghost predicate Recent(a: Admission) {
    forall t :: t in a.pool ==> exists j: nat :: j < a.issued < j + LAST_TOKEN && t == TokenAt(j)
  }

  /** While connections live that short, a newly admitted one displaces nobody. */
  lemma {:induction false} AdmissionDisplacesNobody(a: Admission, p: Peer)
    requires Recent(a) && Trusted(p) && p.registers
    ensures TokenAt(a.issued) !in a.pool && |Admit(a, p).pool| == |a.pool| + 1
    ensures forall t :: t in a.pool ==> t in Admit(a, p).pool && Admit(a, p).pool[t] == a.pool[t]
  {
    TokenIsFresh(a);
  }

  lemma {:induction false} TokenIsFresh(a: Admission)
    requires Recent(a)
    ensures TokenAt(a.issued) !in a.pool
  {
    forall j: nat | j < a.issued < j + LAST_TOKEN ensures TokenAt(j) != TokenAt(a.issued) {
      TokensRepeat(j, a.issued);
    }
  }

  /** No event gives out a token, so none makes a connection older. */
  lemma {:induction false} EventsKeepRecent(a: Admission, events: seq<Event>)
    requires Recent(a)
    ensures Recent(a.(pool := AfterEvents(a.pool, events)))
    decreases |events|
  {
    if events != [] {
      EventsKeepRecent(a, events[..|events| - 1]);
      assert AfterEvents(a.pool, events).Keys <= AfterEvents(a.pool, events[..|events| - 1]).Keys;
    }
  }

  /** An admission keeps all connections recent if and only if the token that comes next is free again. */
  lemma {:induction false} AdmissionKeepsRecent(a: Admission, p: Peer)
    requires Recent(a) && Trusted(p)
    ensures Recent(Admit(a, p)) <==> TokenAt(a.issued + 1) !in Admit(a, p).pool
  {
    var b := Admit(a, p);
    if Recent(b) {
      TokenIsFresh(b);
    }
    if TokenAt(a.issued + 1) !in b.pool {
      forall t | t in b.pool ensures exists j: nat :: j < b.issued < j + LAST_TOKEN && t == TokenAt(j) {
        var j: nat := a.issued;
        if t in a.pool {
          j :| j < a.issued < j + LAST_TOKEN && t == TokenAt(j);
        }
        if a.issued + 1 >= j + LAST_TOKEN {
          TokensRepeat(j, a.issued + 1);
        }
      }
    }
  }

  /** Admitting peers, each of which leaves the next token free, keeps all connections recent. */
  lemma {:induction false} AdmissionsKeepRecent(a: Admission, peers: seq<Peer>)
    requires Recent(a) && LeaveTokensFree(a, peers)
    ensures Recent(AdmitAll(a, peers))
    decreases |peers|
  {
    if peers != [] {
      var n := |peers| - 1;
      forall q: nat | q < n ensures LeavesTokenFree(a, peers[..n], q) {
        assert peers[..n][..q + 1] == peers[..q + 1];
        assert LeavesTokenFree(a, peers, q);
      }
      AdmissionsKeepRecent(a, peers[..n]);
      assert LeavesTokenFree(a, peers, n);
      assert peers[..n + 1] == peers;
      if Trusted(peers[n]) {
        AdmissionKeepsRecent(AdmitAll(a, peers[..n]), peers[n]);
      }
    }
  }

  /** Once peer `q` is admitted, no pooled connection has the token that comes next. */
  predicate LeavesTokenFree(a: Admission, peers: seq<Peer>, q: nat)
    requires q < |peers|
  {
    var b := AdmitAll(a, peers[..q + 1]);
    Trusted(peers[q]) ==> TokenAt(b.issued) !in b.pool
  }

  ghost predicate LeaveTokensFree(a: Admission, peers: seq<Peer>) {
    forall q :: 0 <= q < |peers| ==> LeavesTokenFree(a, peers, q)
  }

  /** The pool and the token count that turn `k` starts accepting with. */
  function Admitting(states: seq<Snapshot>, turns: seq<TurnRecord>, k: nat): Admission
    requires k < |turns| && k < |states|
  {
    Admission(AfterEvents(states[k].pool, turns[k].events), states[k].issued)
  }

  /** As long as the counter never comes round to a token in use, all connections of a run are recent. */
  lemma {:induction false} RunRecent(states: seq<Snapshot>, turns: seq<TurnRecord>, n: nat)
    requires IsRun(states, turns) && n <= |turns|
    requires forall k :: 0 <= k < n ==> LeaveTokensFree(Admitting(states, turns, k), turns[k].taken)
    ensures Recent(Admission(states[n].pool, states[n].issued))
  {
    if n > 0 {
      var s := states[n - 1];
      RunRecent(states, turns, n - 1);
      EventsKeepRecent(Admission(s.pool, s.issued), turns[n - 1].events);
      AdmissionsKeepRecent(Admitting(states, turns, n - 1), turns[n - 1].taken);
      assert TurnAt(states, turns, n - 1);
    }
  }

  // ---------------------------------------------------------------- a token while it is in use

  ghost predicate SameAt(a: Pool, b: Pool, token: nat) {
    (token in a <==> token in b) && (token in a ==> a[token] == b[token])
  }

  lemma {:induction false} IssuedGrows(a: Admission, peers: seq<Peer>)
    ensures AdmitAll(a, peers).issued >= a.issued
  {
    if peers != [] {
      IssuedGrows(a, peers[..|peers| - 1]);
    }
  }

  /** Admissions leave the holder of token number `i` alone until a million tokens have been given out. */
  lemma {:induction false} AdmissionsSpare(a: Admission, peers: seq<Peer>, i: nat)
    requires i < a.issued && AdmitAll(a, peers).issued <= i + LAST_TOKEN
    ensures SameAt(AdmitAll(a, peers).pool, a.pool, TokenAt(i))
    decreases |peers|
  {
    if peers != [] {
      var n := |peers| - 1;
      var b := AdmitAll(a, peers[..n]);
      IssuedGrows(a, peers[..n]);
      AdmissionsSpare(a, peers[..n], i);
      if Trusted(peers[n]) {
        TokensRepeat(i, b.issued);
      }
    }
  }

  /** The token number that peer `q` of a turn is given. */
  function NumberOf(a: Admission, peers: seq<Peer>, q: nat): nat
    requires q < |peers|
  {
    AdmitAll(a, peers[..q]).issued
  }

  /** A trusted peer that registers is in the pool at the end of its turn, with nothing received. */
  lemma {:induction false} AdmittedIsPooled(a: Admission, peers: seq<Peer>, q: nat)
    requires q < |peers| && Trusted(peers[q]) && peers[q].registers
    requires AdmitAll(a, peers).issued <= NumberOf(a, peers, q) + LAST_TOKEN
    ensures var i, b := NumberOf(a, peers, q), AdmitAll(a, peers);
      i < b.issued && TokenAt(i) in b.pool && b.pool[TokenAt(i)] == Connection([], peers[q].containerId)
    decreases |peers|
  {
    var n := |peers| - 1;
    if q < n {
      var i, b := NumberOf(a, peers, q), AdmitAll(a, peers[..n]);
      assert peers[..n][..q] == peers[..q];
      AdmittedIsPooled(a, peers[..n], q);
      if Trusted(peers[n]) {
        TokensRepeat(i, b.issued);
      }
    }
  }

  // ---------------------------------------------------------------- a connection over many events

  predicate IsFor(e: Event, token: nat) {
    e.ClientReady? && e.token == token
  }

  /** The reads made on the connection over some events, the first of which finds `pool`. */
  function Heard(pool: Pool, events: seq<Event>, token: nat): seq<Bytes> {
    if events == [] then []
    else
      var n := |events| - 1;
      var earlier := Heard(pool, events[..n], token);
      if IsFor(events[n], token) && token in AfterEvents(pool, events[..n]) then earlier + DataOf(events[n].outcomes)
      else earlier
  }

  /** The lines evaluated for the connection over some events. */
  function Spoken(events: seq<Event>, evaluated: seq<seq<Bytes>>, token: nat): seq<Bytes> {
    if events == [] then []
    else
      var n := |events| - 1;
      var earlier := Spoken(events[..n], evaluated, token);
      if IsFor(events[n], token) && n < |evaluated| then earlier + evaluated[n] else earlier
  }

  /** What has been evaluated is the session of all reads so far, and the buffer too while the connection lasts. */
  ghost predicate InSession(lines: seq<Bytes>, received: seq<Bytes>, pool: Pool, token: nat) {
    && lines == ReceiveAll(received).lines
    && (token in pool ==> ReceiveAll(received) == Session(lines, pool[token].buffer, true))
  }

  lemma {:induction false} EventInSession(lines: seq<Bytes>, received: seq<Bytes>, pool: Pool, token: nat, e: Event)
    requires InSession(lines, received, pool, token) && IsFor(e, token) && token in pool
    ensures InSession(lines + LinesOf(pool, e), received + DataOf(e.outcomes), AfterEvent(pool, e), token)
  {
    var buffer := pool[token].buffer;
    ReceiveOn(Session([], [], true), received, DataOf(e.outcomes));
    ReceiveBehind(lines, buffer, DataOf(e.outcomes));
  }

  lemma {:induction false} NextInSession(lines: seq<Bytes>, received: seq<Bytes>, spoken: seq<Bytes>, heard: seq<Bytes>,
                                         pool: Pool, token: nat, e: Event)
    requires InSession(lines + spoken, received + heard, pool, token)
    ensures var spokenNext := if IsFor(e, token) then spoken + LinesOf(pool, e) else spoken;
      var heardNext := if IsFor(e, token) && token in pool then heard + DataOf(e.outcomes) else heard;
      InSession(lines + spokenNext, received + heardNext, AfterEvent(pool, e), token)
  {
    if IsFor(e, token) {
      Regroup(lines, spoken, LinesOf(pool, e));
      if token in pool {
        EventInSession(lines + spoken, received + heard, pool, token, e);
        Regroup(received, heard, DataOf(e.outcomes));
      } else {
        assert lines + spoken + [] == lines + spoken;
      }
    }
  }

  lemma {:induction false} EventsInSession(lines: seq<Bytes>, received: seq<Bytes>, pool: Pool, events: seq<Event>,
                                           evaluated: seq<seq<Bytes>>, n: nat, token: nat)
    requires InSession(lines, received, pool, token) && Evaluated(pool, events, evaluated) && n <= |events|
    ensures InSession(lines + Spoken(events[..n], evaluated, token), received + Heard(pool, events[..n], token),
                      AfterEvents(pool, events[..n]), token)
    decreases n
  {
    if n == 0 {
      assert lines + [] == lines && received + [] == received;
    } else {
      var front := events[..n - 1];
      EventsInSession(lines, received, pool, events, evaluated, n - 1, token);
      assert events[..n][..n - 1] == front;
      assert EvaluatedAt(pool, events, n - 1, evaluated[n - 1]);
      NextInSession(lines, received, Spoken(front, evaluated, token), Heard(pool, front, token),
                    AfterEvents(pool, front), token, events[n - 1]);
    }
  }

  // ---------------------------------------------------------------- a connection over a run

  function SpokenOver(turns: seq<TurnRecord>, token: nat, m: nat, n: nat): seq<Bytes>
    requires m <= n <= |turns|
  {
    if m == n then []
    else SpokenOver(turns, token, m, n - 1) + Spoken(turns[n - 1].events, turns[n - 1].evaluated, token)
  }

  function HeardOver(states: seq<Snapshot>, turns: seq<TurnRecord>, token: nat, m: nat, n: nat): seq<Bytes>
    requires m <= n <= |turns| && n <= |states|
  {
    if m == n then []
    else HeardOver(states, turns, token, m, n - 1) + Heard(states[n - 1].pool, turns[n - 1].events, token)
  }

  lemma {:induction false} IssuedOverRun(states: seq<Snapshot>, turns: seq<TurnRecord>, m: nat, n: nat)
    requires IsRun(states, turns) && m <= n <= |turns|
    ensures states[m].issued <= states[n].issued
    decreases n - m
  {
    if m < n {
      IssuedOverRun(states, turns, m, n - 1);
      assert TurnAt(states, turns, n - 1);
      IssuedGrows(Admitting(states, turns, n - 1), turns[n - 1].taken);
    }
  }

  lemma {:induction false} TurnInSession(lines: seq<Bytes>, received: seq<Bytes>, states: seq<Snapshot>,
                                         turns: seq<TurnRecord>, k: nat, i: nat)
    requires IsRun(states, turns) && k < |turns|
    requires i < states[k].issued && states[k + 1].issued <= i + LAST_TOKEN
    requires InSession(lines, received, states[k].pool, TokenAt(i))
    ensures var r := turns[k];
      InSession(lines + Spoken(r.events, r.evaluated, TokenAt(i)),
                received + Heard(states[k].pool, r.events, TokenAt(i)),
                states[k + 1].pool, TokenAt(i))
  {
    var r := turns[k];
    assert TurnAt(states, turns, k);
    EventsInSession(lines, received, states[k].pool, r.events, r.evaluated, |r.events|, TokenAt(i));
    assert r.events[..|r.events|] == r.events;
    AdmissionsSpare(Admitting(states, turns, k), r.taken, i);
  }

  lemma {:induction false} TurnsInSession(states: seq<Snapshot>, turns: seq<TurnRecord>, m: nat, n: nat, i: nat)
    requires IsRun(states, turns) && m <= n <= |turns|
    requires i < states[m].issued && states[n].issued <= i + LAST_TOKEN
    requires InSession([], [], states[m].pool, TokenAt(i))
    ensures InSession(SpokenOver(turns, TokenAt(i), m, n), HeardOver(states, turns, TokenAt(i), m, n),
                      states[n].pool, TokenAt(i))
    decreases n - m
  {
    if m < n {
      IssuedOverRun(states, turns, m, n - 1);
      IssuedOverRun(states, turns, n - 1, n);
      TurnsInSession(states, turns, m, n - 1, i);
      TurnInSession(SpokenOver(turns, TokenAt(i), m, n - 1), HeardOver(states, turns, TokenAt(i), m, n - 1),
                    states, turns, n - 1, i);
    }
  }

  /** The token number of peer `q` accepted in turn `m`. */
  function NumberIn(states: seq<Snapshot>, turns: seq<TurnRecord>, m: nat, q: nat): nat
    requires m < |turns| && m < |states| && q < |turns[m].taken|
  {
    NumberOf(Admitting(states, turns, m), turns[m].taken, q)
  }

  /**
    From the turn that admits it on, while fewer than a million tokens are given out, a connection is one
    session, however its bytes are spread over reads, events and turns: the lines evaluated under its
    token are those of all its reads received in a row, and its buffer is what they leave.
  */
  lemma {:induction false} ConnectionIsOneSession(states: seq<Snapshot>, turns: seq<TurnRecord>, m: nat, q: nat, n: nat)
    requires IsRun(states, turns) && m < n <= |turns|
    requires q < |turns[m].taken| && turns[m].taken[q].uid == Some(0) && turns[m].taken[q].registers
    requires states[n].issued <= NumberIn(states, turns, m, q) + LAST_TOKEN
    ensures var token := TokenAt(NumberIn(states, turns, m, q));
      && token in states[m + 1].pool
      && states[m + 1].pool[token] == Connection([], turns[m].taken[q].containerId)
      && InSession(SpokenOver(turns, token, m + 1, n), HeardOver(states, turns, token, m + 1, n), states[n].pool, token)
  {
    var a, i := Admitting(states, turns, m), NumberIn(states, turns, m, q);
    assert TurnAt(states, turns, m);
    IssuedOverRun(states, turns, m + 1, n);
    AdmittedIsPooled(a, turns[m].taken, q);
    TurnsInSession(states, turns, m + 1, n, i);
  }

  /** So those lines are a prefix of the lines of the bytes read, and all of them while the connection lasts. */
  lemma {:induction false} ConnectionDeliversPrefix(states: seq<Snapshot>, turns: seq<TurnRecord>, m: nat, q: nat,
                                                    n: nat)
    requires IsRun(states, turns) && m < n <= |turns|
    requires q < |turns[m].taken| && turns[m].taken[q].uid == Some(0) && turns[m].taken[q].registers
    requires states[n].issued <= NumberIn(states, turns, m, q) + LAST_TOKEN
    ensures var token := TokenAt(NumberIn(states, turns, m, q));
      var lines, stream := SpokenOver(turns, token, m + 1, n), Concat(HeardOver(states, turns, token, m + 1, n));
      && lines <= Lines(stream)
      && (token in states[n].pool ==> lines == Lines(stream) && states[n].pool[token].buffer == Tail(stream))
  {
    ConnectionIsOneSession(states, turns, m, q, n);
    DeliversPrefix(HeardOver(states, turns, TokenAt(NumberIn(states, turns, m, q)), m + 1, n));
  }

  // ---------------------------------------------------------------- when a connection leaves

  /** No event for the connection ends or fails. */
  ghost predicate NoneHangs(events: seq<Event>, token: nat) {
    forall i :: 0 <= i < |events| && IsFor(events[i], token) ==> !Hangs(events[i].outcomes)
  }

  lemma {:induction false} EventsOnlyRemove(pool: Pool, events: seq<Event>)
    ensures forall t :: t in AfterEvents(pool, events) ==>
      t in pool && AfterEvents(pool, events)[t].containerId == pool[t].containerId
  {
    if events != [] {
      EventsOnlyRemove(pool, events[..|events| - 1]);
    }
  }

  /** One event for a pooled connection: it stays exactly if it neither hangs up nor overflows. */
  lemma {:induction false} StaysAfterEvent(lines: seq<Bytes>, received: seq<Bytes>, pool: Pool, token: nat, e: Event)
    requires InSession(lines, received, pool, token) && IsFor(e, token) && token in pool
    ensures token in AfterEvent(pool, e) <==>
      !Hangs(e.outcomes) && ReceiveAll(received + DataOf(e.outcomes)).open
  {
    ReceiveOn(Session([], [], true), received, DataOf(e.outcomes));
    ReceiveBehind(lines, pool[token].buffer, DataOf(e.outcomes));
  }

  lemma {:induction false} NoneHangsMore(events: seq<Event>, n: nat, token: nat)
    requires n < |events|
    ensures NoneHangs(events[..n + 1], token) <==>
      NoneHangs(events[..n], token) && (IsFor(events[n], token) ==> !Hangs(events[n].outcomes))
  {
    assert events[..n + 1] == events[..n] + [events[n]];
  }

  lemma {:induction false} StaysNext(lines: seq<Bytes>, received: seq<Bytes>, heard: seq<Bytes>, pool: Pool, token: nat,
                                     e: Event, soFar: bool)
    requires InSession(lines, received + heard, pool, token)
    requires token in pool <==> soFar && ReceiveAll(received + heard).open
    ensures var heardNext := if IsFor(e, token) && token in pool then heard + DataOf(e.outcomes) else heard;
      token in AfterEvent(pool, e) <==>
        soFar && (IsFor(e, token) ==> !Hangs(e.outcomes)) && ReceiveAll(received + heardNext).open
  {
    if IsFor(e, token) && token in pool {
      StaysAfterEvent(lines, received + heard, pool, token, e);
      Regroup(received, heard, DataOf(e.outcomes));
    }
  }

  /** Over the events of a turn: it stays exactly if none of them hangs up and its session does not overflow. */
  lemma {:induction false} StaysAfterEvents(lines: seq<Bytes>, received: seq<Bytes>, pool: Pool, events: seq<Event>,
                                            evaluated: seq<seq<Bytes>>, n: nat, token: nat)
    requires InSession(lines, received, pool, token) && Evaluated(pool, events, evaluated) && n <= |events|
    requires token in pool
    ensures token in AfterEvents(pool, events[..n]) <==>
      NoneHangs(events[..n], token) && ReceiveAll(received + Heard(pool, events[..n], token)).open
    decreases n
  {
    if n == 0 {
      assert received + [] == received;
    } else {
      var front := events[..n - 1];
      StaysAfterEvents(lines, received, pool, events, evaluated, n - 1, token);
      EventsInSession(lines, received, pool, events, evaluated, n - 1, token);
      NoneHangsMore(events, n - 1, token);
      assert events[..n][..n - 1] == front;
      StaysNext(lines + Spoken(front, evaluated, token), received, Heard(pool, front, token),
                AfterEvents(pool, front), token, events[n - 1], NoneHangs(front, token));
    }
  }

  lemma {:induction false} StaysInTurn(lines: seq<Bytes>, received: seq<Bytes>, states: seq<Snapshot>,
                                       turns: seq<TurnRecord>, k: nat, i: nat)
    requires IsRun(states, turns) && k < |turns|
    requires i < states[k].issued && states[k + 1].issued <= i + LAST_TOKEN
    requires InSession(lines, received, states[k].pool, TokenAt(i))
    ensures var token := TokenAt(i);
      token in states[k + 1].pool <==>
        && token in states[k].pool && NoneHangs(turns[k].events, token)
        && ReceiveAll(received + Heard(states[k].pool, turns[k].events, token)).open
  {
    var r, token := turns[k], TokenAt(i);
    assert TurnAt(states, turns, k);
    AdmissionsSpare(Admitting(states, turns, k), r.taken, i);
    if token in states[k].pool {
      StaysAfterEvents(lines, received, states[k].pool, r.events, r.evaluated, |r.events|, token);
      assert r.events[..|r.events|] == r.events;
    } else {
      EventsOnlyRemove(states[k].pool, r.events);
    }
  }

  lemma {:induction false} StaysInTurns(states: seq<Snapshot>, turns: seq<TurnRecord>, m: nat, n: nat, i: nat)
    requires IsRun(states, turns) && m <= n <= |turns|
    requires i < states[m].issued && states[n].issued <= i + LAST_TOKEN
    requires TokenAt(i) in states[m].pool && InSession([], [], states[m].pool, TokenAt(i))
    ensures TokenAt(i) in states[n].pool <==>
      && (forall k :: m <= k < n ==> NoneHangs(turns[k].events, TokenAt(i)))
      && ReceiveAll(HeardOver(states, turns, TokenAt(i), m, n)).open
    decreases n - m
  {
    if m < n {
      var token := TokenAt(i);
      var heard := HeardOver(states, turns, token, m, n - 1);
      IssuedOverRun(states, turns, m, n - 1);
      IssuedOverRun(states, turns, n - 1, n);
      StaysInTurns(states, turns, m, n - 1, i);
      TurnsInSession(states, turns, m, n - 1, i);
      StaysInTurn(SpokenOver(turns, token, m, n - 1), heard, states, turns, n - 1, i);
      if !ReceiveAll(heard).open {
        StaysClosed(Session([], [], true), heard, Heard(states[n - 1].pool, turns[n - 1].events, token));
      }
    }
  }

  /**
    A connection is kept exactly as long as none of its events ends or fails and its reads do not
    overflow: it leaves the pool in the turn in which one of these happens, and in no other.
  */
  lemma {:induction false} LeavesWhenItEnds(states: seq<Snapshot>, turns: seq<TurnRecord>, m: nat, q: nat, n: nat)
    requires IsRun(states, turns) && m < n <= |turns|
    requires q < |turns[m].taken| && turns[m].taken[q].uid == Some(0) && turns[m].taken[q].registers
    requires states[n].issued <= NumberIn(states, turns, m, q) + LAST_TOKEN
    ensures var token := TokenAt(NumberIn(states, turns, m, q));
      token in states[n].pool <==>
        && (forall k :: m < k < n ==> NoneHangs(turns[k].events, token))
        && ReceiveAll(HeardOver(states, turns, token, m + 1, n)).open
  {
    var i := NumberIn(states, turns, m, q);
    IssuedOverRun(states, turns, m + 1, n);
    ConnectionIsOneSession(states, turns, m, q, m + 1);
    assert TurnAt(states, turns, m);
    AdmittedIsPooled(Admitting(states, turns, m), turns[m].taken, q);
    StaysInTurns(states, turns, m + 1, n, i);
  }

  /** Turn by turn: a connection in the pool leaves it exactly if an event of the turn hangs up or overflows. */
  lemma {:induction false} LeavesInThatTurn(states: seq<Snapshot>, turns: seq<TurnRecord>, m: nat, q: nat, k: nat)
    requires IsRun(states, turns) && m < k < |turns|
    requires q < |turns[m].taken| && turns[m].taken[q].uid == Some(0) && turns[m].taken[q].registers
    requires states[k + 1].issued <= NumberIn(states, turns, m, q) + LAST_TOKEN
    requires TokenAt(NumberIn(states, turns, m, q)) in states[k].pool
    ensures var token := TokenAt(NumberIn(states, turns, m, q));
      token !in states[k + 1].pool <==>
        || !NoneHangs(turns[k].events, token)
        || !ReceiveAll(HeardOver(states, turns, token, m + 1, k + 1)).open
  {
    IssuedOverRun(states, turns, k, k + 1);
    LeavesWhenItEnds(states, turns, m, q, k);
    LeavesWhenItEnds(states, turns, m, q, k + 1);
  }

  // ---------------------------------------------------------------- who is in the pool

  /** Peer `q` accepted in turn `k` runs as root, registers, and was given this token and container id. */
  ghost predicate CameAs(states: seq<Snapshot>, turns: seq<TurnRecord>, k: nat, q: nat, token: nat, id: Option<string>)
    requires k < |turns| && k < |states| && q < |turns[k].taken|
  {
    var p := turns[k].taken[q];
    p.uid == Some(0) && p.registers && p.containerId == id && token == TokenAt(NumberIn(states, turns, k, q))
  }

  lemma {:induction false} PooledWasAdmitted(a: Admission, peers: seq<Peer>, token: nat) returns (q: int)
    requires token in AdmitAll(a, peers).pool
    ensures var conn := AdmitAll(a, peers).pool[token];
      if q < 0 then token in a.pool && conn == a.pool[token]
      else
        && q < |peers| && peers[q].uid == Some(0) && peers[q].registers && token == TokenAt(NumberOf(a, peers, q))
        && conn.containerId == peers[q].containerId
  {
    if peers == [] {
      return -1;
    }
    var n := |peers| - 1;
    var b := AdmitAll(a, peers[..n]);
    if Trusted(peers[n]) && peers[n].registers && token == TokenAt(b.issued) {
      return n;
    }
    q := PooledWasAdmitted(a, peers[..n], token);
    if q >= 0 {
      assert peers[..n][..q] == peers[..q];
    }
  }

  /** Whoever is in the pool runs as root and was accepted under its token; its container id never changes. */
  lemma {:induction false} OnlyRootIsPooled(states: seq<Snapshot>, turns: seq<TurnRecord>, n: nat, token: nat)
    returns (k: nat, q: nat)
    requires IsRun(states, turns) && n <= |turns| && token in states[n].pool
    ensures k < n && q < |turns[k].taken|
    ensures CameAs(states, turns, k, q, token, states[n].pool[token].containerId)
  {
    k := n - 1;
    assert TurnAt(states, turns, k);
    var a := Admitting(states, turns, k);
    var found := PooledWasAdmitted(a, turns[k].taken, token);
    if found >= 0 {
      q := found;
    } else {
      EventsOnlyRemove(states[k].pool, turns[k].events);
      k, q := OnlyRootIsPooled(states, turns, n - 1, token);
    }
  }
}
