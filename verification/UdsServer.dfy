/** The socket server's connection pool (src/socket.rs, `run_uds_server`). */
module UdsServer {
  import opened Wrappers
  import opened LineSplitting
  import opened UdsFraming

  const MAX_CONNECTIONS := 50
  const FIRST_TOKEN := 1
  const LAST_TOKEN := 1000000

  /** A connecting process: its uid if the kernel tells it, its container id, and whether mio takes it. */
  datatype Peer = Peer(uid: Option<nat>, containerId: Option<string>, registers: bool)

  datatype Event = ServerReady | ClientReady(token: nat, outcomes: seq<ReadOutcome>)

  /** What happens around one call of accept: peers that connect just before it, or a failure. */
  datatype Attempt = Attempt(arrivals: seq<Peer>, fails: bool)

  datatype AcceptResult = Accepted(peer: Peer) | NoneWaiting | AcceptFailed

  // ---------------------------------------------------------------- the kernel's side

  /**
    The listening socket. Readiness is edge-triggered: an arrival arms an edge, one poll delivers it,
    and connections that wait when it is delivered are announced once and never again.
  */
  class Listener {
    var backlog: seq<Peer>
    var edge: bool
    ghost var announced: nat

    /** Nobody waits unannounced without an edge on its way. */
    ghost predicate Valid()
      reads this
    {
      announced <= |backlog| && (announced < |backlog| ==> edge)
    }

    constructor ()
      ensures Valid() && backlog == [] && announced == 0 && !edge
    {
      backlog, edge, announced := [], false, 0;
    }

    method Arrive(peers: seq<Peer>)
      requires Valid()
      modifies this
      ensures Valid() && backlog == old(backlog) + peers && announced == old(announced)
      ensures edge == (old(edge) || peers != [])
    {
      backlog, edge := backlog + peers, edge || peers != [];
    }

    /** A poll reports the edge, if there is one. */
    method Deliver()
      requires Valid()
      modifies this
      ensures Valid() && backlog == old(backlog) && announced == |backlog| && !edge
    {
      edge, announced := false, |backlog|;
    }

    method Accept(fails: bool) returns (r: AcceptResult)
      requires Valid()
      modifies this
      ensures Valid() && edge == old(edge)
      ensures r == if fails then AcceptFailed else if old(backlog) == [] then NoneWaiting else Accepted(old(backlog)[0])
      ensures backlog == if r.Accepted? then old(backlog)[1..] else old(backlog)
      ensures announced == if r.Accepted? && old(announced) > 0 then old(announced) - 1 else old(announced)
    {
      if fails {
        return AcceptFailed;
      }
      if backlog == [] {
        return NoneWaiting;
      }
      r := Accepted(backlog[0]);
      backlog := backlog[1..];
      announced := if announced > 0 then announced - 1 else 0;
    }
  }

  // ---------------------------------------------------------------- specification

  type Pool = map<nat, Connection>

  /** What one client event does to the pool. */
  function AfterEvent(pool: Pool, e: Event): Pool {
    if e.ServerReady? || e.token !in pool then pool
    else
      var conn := pool[e.token];
      var end := ReceiveFrom(Session([], conn.buffer, true), DataOf(e.outcomes));
      if end.open && !Hangs(e.outcomes) then pool[e.token := conn.(buffer := end.buffer)] else pool - {e.token}
  }

  function AfterEvents(pool: Pool, events: seq<Event>): Pool {
    if events == [] then pool else AfterEvent(AfterEvents(pool, events[..|events| - 1]), events[|events| - 1])
  }

  lemma AfterOneMore(pool: Pool, events: seq<Event>, i: nat)
    requires i < |events|
    ensures AfterEvents(pool, events[..i + 1]) == AfterEvent(AfterEvents(pool, events[..i]), events[i])
    ensures ServerReady in events[..i + 1] <==> ServerReady in events[..i] || events[i].ServerReady?
  {
    assert events[..i + 1][..i] == events[..i];
    assert events[..i + 1] == events[..i] + [events[i]];
  }

  /** The lines one event evaluates. */
  function LinesOf(pool: Pool, e: Event): seq<Bytes> {
    if e.ServerReady? || e.token !in pool then []
    else ReceiveFrom(Session([], pool[e.token].buffer, true), DataOf(e.outcomes)).lines
  }

  /** The lines the first `n` events evaluate, each given the pool the events before it left. */
  ghost predicate EvaluatedBy(pool: Pool, events: seq<Event>, n: nat, evaluated: seq<seq<Bytes>>) {
    && |evaluated| == n <= |events|
    && forall i :: 0 <= i < n ==> EvaluatedAt(pool, events, i, evaluated[i])
  }

  ghost predicate EvaluatedAt(pool: Pool, events: seq<Event>, i: nat, lines: seq<Bytes>)
    requires i < |events|
  {
    lines == LinesOf(AfterEvents(pool, events[..i]), events[i])
  }

  ghost predicate Evaluated(pool: Pool, events: seq<Event>, evaluated: seq<seq<Bytes>>) {
    EvaluatedBy(pool, events, |events|, evaluated)
  }

  predicate Trusted(p: Peer) {
    p.uid == Some(0)
  }

  /** The token given out after `issued` others: the counter runs from 1 to 1000000 and wraps. */
  function TokenAt(issued: nat): (t: nat)
    ensures FIRST_TOKEN <= t <= LAST_TOKEN
  {
    FIRST_TOKEN + issued % LAST_TOKEN
  }

  datatype Admission = Admission(pool: Pool, issued: nat)

  /** Accepting a peer: an untrusted one is dropped, a trusted one takes a token and a place in the pool. */
  function Admit(a: Admission, p: Peer): Admission {
    if !Trusted(p) then a
    else
      var pool := if p.registers then a.pool[TokenAt(a.issued) := Connection([], p.containerId)] else a.pool;
      Admission(pool, a.issued + 1)
  }

  function AdmitAll(a: Admission, peers: seq<Peer>): Admission {
    if peers == [] then a else Admit(AdmitAll(a, peers[..|peers| - 1]), peers[|peers| - 1])
  }

  /** The peers that connect around some accept calls. */
  function ArrivalsOf(attempts: seq<Attempt>): seq<Peer> {
    if attempts == [] then [] else ArrivalsOf(attempts[..|attempts| - 1]) + attempts[|attempts| - 1].arrivals
  }

  /** What accepting works on. */
  datatype Standing = Standing(admission: Admission, backlog: seq<Peer>, announced: nat)

  /** Everything a turn can depend on or change, and how many peers it knows to be waiting. */
  datatype Snapshot = Snapshot(pool: Pool, issued: nat, pending: bool, backlog: seq<Peer>, announced: nat, edge: bool)

  /**
    What happens in a turn: who connects before and during it, what the poll reports, which lines each
    event evaluates, who is accepted, and whether an accept fails.
  */
  datatype TurnRecord = TurnRecord(
    before: seq<Peer>,
    events: seq<Event>,
    evaluated: seq<seq<Bytes>>,
    arrived: seq<Peer>,
    taken: seq<Peer>,
    failed: bool)

  /** An announced connection is remembered, and it waits only while the pool is full. */
  ghost predicate IsSettled(s: Snapshot) {
    s.announced > 0 ==> s.pending && |s.pool| == MAX_CONNECTIONS
  }

  ghost predicate IsSound(s: Snapshot) {
    && |s.pool| <= MAX_CONNECTIONS && s.announced <= |s.backlog| && (s.announced < |s.backlog| ==> s.edge)
  }

  /** How many peers have been announced once the poll has returned. */
  function AnnouncedBy(s: Snapshot, events: seq<Event>): nat {
    if ServerReady in events then |s.backlog| else s.announced
  }

  /**
    A turn accepts the peers that wait, in order, from the front of the backlog, and loses none; each
    goes through admission. Unless an accept fails it ends settled, and if it had reason to accept it
    ends with the pool full or with nobody waiting.
  */
  ghost predicate TurnOf(s: Snapshot, r: TurnRecord, t: Snapshot) {
    var pool := AfterEvents(s.pool, r.events);
    var freed := |pool| < |s.pool|;
    && IsSound(t) && Evaluated(s.pool, r.events, r.evaluated)
    && Admission(t.pool, t.issued) == AdmitAll(Admission(pool, s.issued), r.taken)
    && s.backlog + r.arrived == r.taken + t.backlog
    && t.announced == (var n := AnnouncedBy(s, r.events); if n > |r.taken| then n - |r.taken| else 0)
    && (!r.failed && (IsSettled(s) || ServerReady in r.events || freed) ==> IsSettled(t))
    && (!r.failed && (s.pending || ServerReady in r.events || freed) ==> |t.pool| == MAX_CONNECTIONS || t.backlog == [])
  }

  lemma AdmitMore(a: Admission, peers: seq<Peer>, p: Peer)
    ensures AdmitAll(a, peers + [p]) == Admit(AdmitAll(a, peers), p)
  {
    assert (peers + [p])[..|peers|] == peers;
  }

  // ---------------------------------------------------------------- the server

  class Server {
    const listener: Listener
    var pool: Pool
    var backlogPending: bool
    var tokenCounter: nat
    ghost var issued: nat

    ghost predicate Valid()
      reads this, listener
    {
      && listener.Valid()
      && |pool| <= MAX_CONNECTIONS
      && tokenCounter == TokenAt(issued)
    }

    ghost function Stands(): Standing
      reads this, listener
    {
      Standing(Admission(pool, issued), listener.backlog, listener.announced)
    }

    ghost function State(): Snapshot
      reads this, listener
    {
      Snapshot(pool, issued, backlogPending, listener.backlog, listener.announced, listener.edge)
    }

    constructor ()
      ensures Valid() && State() == Snapshot(map[], 0, false, [], 0, false) && fresh(listener)
    {
      listener := new Listener();
      pool, backlogPending, tokenCounter, issued := map[], false, FIRST_TOKEN, 0;
    }

    /**
      One turn of the server loop. `events` is what the poll reports: the server's own readiness if an
      edge was armed, and ready clients with what their reads return. `attempts` is what happens around
      the accept calls of this turn, of which `used` are made; after the last, nobody else connects.
    */
    method Turn(events: seq<Event>, attempts: seq<Attempt>)
      returns (evaluated: seq<seq<Bytes>>, ghost taken: seq<Peer>, used: nat, ghost failed: bool)
      requires Valid()
      requires listener.edge ==> ServerReady in events
      modifies this, listener
      ensures Valid() && used <= |attempts|
      ensures var arrived := ArrivalsOf(attempts[..used]);
        TurnOf(old(State()), TurnRecord([], events, evaluated, arrived, taken, failed), State())
      ensures failed <==> used > 0 && attempts[used - 1].fails
    {
      ghost var before := listener.backlog;
      if ServerReady in events {
        listener.Deliver();
      }
      var slotFreed;
      evaluated, slotFreed := HandleEvents(events);
      taken, used, failed := [], 0, false;
      if (backlogPending || slotFreed) && |pool| < MAX_CONNECTIONS {
        taken, used, failed := AcceptPending(attempts);
      }
      assert before + [] == [] + before;
    }

    method HandleEvents(events: seq<Event>) returns (evaluated: seq<seq<Bytes>>, slotFreed: bool)
      requires Valid()
      modifies this`pool, this`backlogPending
      ensures Valid() && pool == AfterEvents(old(pool), events)
      ensures backlogPending == (old(backlogPending) || ServerReady in events)
      ensures |pool| <= |old(pool)| && (!slotFreed ==> |pool| == |old(pool)|)
      ensures Evaluated(old(pool), events, evaluated)
    {
      evaluated, slotFreed := [], false;
      ghost var begin, wasPending := pool, backlogPending;
      for i := 0 to |events|
        invariant Valid() && pool == AfterEvents(begin, events[..i])
        invariant backlogPending == (wasPending || ServerReady in events[..i])
        invariant |pool| <= |begin| && (!slotFreed ==> |pool| == |begin|)
        invariant EvaluatedBy(begin, events, i, evaluated)
      {
        var lines, freed := HandleEvent(events[i]);
        AfterOneMore(begin, events, i);
        assert EvaluatedAt(begin, events, i, lines);
        evaluated, slotFreed := evaluated + [lines], slotFreed || freed;
      }
      assert events[..|events|] == events;
    }

    method HandleEvent(e: Event) returns (lines: seq<Bytes>, freed: bool)
      requires Valid()
      modifies this`pool, this`backlogPending
      ensures Valid() && pool == AfterEvent(old(pool), e) && lines == LinesOf(old(pool), e)
      ensures backlogPending == (old(backlogPending) || e.ServerReady?)
      ensures |pool| <= |old(pool)| && (!freed ==> |pool| == |old(pool)|)
    {
      lines, freed := [], false;
      match e {
        case ServerReady => backlogPending := true;
        case ClientReady(token, outcomes) =>
          if token in pool {
            var conn, remove;
            conn, lines, remove := ReadConnection(pool[token], outcomes);
            if remove {
              assert (pool - {token}).Keys == pool.Keys - {token};
              pool, freed := pool - {token}, true;
            } else {
              assert pool[token := conn].Keys == pool.Keys;
              pool := pool[token := conn];
            }
          }
      }
    }

    method NextToken() returns (token: nat)
      requires tokenCounter == TokenAt(issued)
      modifies this`tokenCounter, this`issued
      ensures token == TokenAt(old(issued)) && issued == old(issued) + 1 && tokenCounter == TokenAt(issued)
    {
      token := tokenCounter;
      tokenCounter := tokenCounter + 1;
      if tokenCounter > LAST_TOKEN {
        tokenCounter := FIRST_TOKEN;
      }
      issued := issued + 1;
    }

    /** An accepted connection: an untrusted peer is dropped, a trusted one takes a token and a place in the pool. */
    method AdmitPeer(peer: Peer)
      requires tokenCounter == TokenAt(issued)
      modifies this`pool, this`tokenCounter, this`issued
      ensures Admission(pool, issued) == Admit(old(Admission(pool, issued)), peer)
      ensures tokenCounter == TokenAt(issued) && |pool| <= |old(pool)| + 1
    {
      if peer.uid != Some(0) {
        return;
      }
      var token := NextToken();
      if peer.registers {
        pool := pool[token := Connection([], peer.containerId)];
      }
    }

    /** One call of accept, behind the peers that connect just before it. */
    method AcceptOne(a: Attempt) returns (r: AcceptResult)
      requires Valid() && |pool| < MAX_CONNECTIONS
      modifies this, listener
      ensures Valid() && AcceptsOne(old(Stands()), a, r, Stands())
      ensures backlogPending == (old(backlogPending) && r.Accepted?)
      ensures r.AcceptFailed? <==> a.fails
      ensures r.NoneWaiting? ==> listener.backlog == []
      ensures a.arrivals == [] && r.Accepted? ==> |listener.backlog| < |old(listener.backlog)|
    {
      listener.Arrive(a.arrivals);
      r := listener.Accept(a.fails);
      match r {
        case Accepted(peer) => AdmitPeer(peer);
        case NoneWaiting => backlogPending := false;
        case AcceptFailed => backlogPending := false;
      }
    }

    /**
      Accepts until the pool is full, nobody waits or an accept fails: the peers taken are the first
      that wait, in order, and everybody else goes on waiting.
    */
    method AcceptPending(attempts: seq<Attempt>) returns (ghost taken: seq<Peer>, used: nat, ghost failed: bool)
      requires Valid() && |pool| < MAX_CONNECTIONS
      modifies this, listener
      ensures Valid() && used <= |attempts|
      ensures AcceptedSoFar(old(Stands()), attempts[..used], taken, Stands())
      ensures failed <==> used > 0 && attempts[used - 1].fails
      ensures !failed ==> if backlogPending then |pool| == MAX_CONNECTIONS else listener.backlog == []
    {
      taken, used, failed := [], 0, false;
      ghost var begin, now := Stands(), Stands();
      while |pool| < MAX_CONNECTIONS
        invariant Valid() && used <= |attempts|
        invariant used > 0 ==> !attempts[used - 1].fails
        invariant now == Stands() && AcceptedSoFar(begin, attempts[..used], taken, now)
        decreases |attempts| - used, |listener.backlog|
      {
        var r := AcceptOne(AttemptAt(attempts, used));
        OneMore(begin, attempts, used, taken, now, r, Stands());
        now := Stands();
        used := if used < |attempts| then used + 1 else used;
        if !r.Accepted? {
          failed := r.AcceptFailed?;
          return;
        }
        taken := taken + [r.peer];
      }
      backlogPending := true;
    }
  }

  /** What happens around the accept call after `used` others; behind the last attempt nobody else connects. */
  function AttemptAt(attempts: seq<Attempt>, used: nat): Attempt {
    if used < |attempts| then attempts[used] else Attempt([], false)
  }

  /** What one call of accept does, behind the peers that connect just before it. */
  ghost predicate AcceptsOne(s: Standing, a: Attempt, r: AcceptResult, t: Standing) {
    var waiting := s.backlog + a.arrivals;
    && r == (if a.fails then AcceptFailed else if waiting == [] then NoneWaiting else Accepted(waiting[0]))
    && t.backlog == (if r.Accepted? then waiting[1..] else waiting)
    && t.announced == (if r.Accepted? && s.announced > 0 then s.announced - 1 else s.announced)
    && t.admission == (if r.Accepted? then Admit(s.admission, r.peer) else s.admission)
  }

  /** From `s` on, with the peers `attempts` bring, the peers `taken` have been accepted and admitted. */
  ghost predicate AcceptedSoFar(s: Standing, attempts: seq<Attempt>, taken: seq<Peer>, t: Standing) {
    && t.admission == AdmitAll(s.admission, taken)
    && s.backlog + ArrivalsOf(attempts) == taken + t.backlog
    && t.announced == if s.announced > |taken| then s.announced - |taken| else 0
  }

  lemma OneMore(begin: Standing, attempts: seq<Attempt>, used: nat, taken: seq<Peer>, s: Standing,
                r: AcceptResult, t: Standing)
    requires used <= |attempts| && AcceptedSoFar(begin, attempts[..used], taken, s)
    requires AcceptsOne(s, AttemptAt(attempts, used), r, t)
    ensures AcceptedSoFar(begin, attempts[..if used < |attempts| then used + 1 else used],
                          if r.Accepted? then taken + [r.peer] else taken, t)
  {
    var a := AttemptAt(attempts, used);
    var arrived, waiting := ArrivalsOf(attempts[..used]), s.backlog + a.arrivals;
    if used < |attempts| {
      assert attempts[..used + 1][..used] == attempts[..used];
      Regroup(begin.backlog, arrived, a.arrivals);
    } else {
      assert s.backlog + [] == s.backlog;
    }
    Regroup(taken, s.backlog, a.arrivals);
    if r.Accepted? {
      AdmitMore(begin.admission, taken, r.peer);
      assert waiting == [r.peer] + waiting[1..];
      Regroup(taken, [r.peer], waiting[1..]);
    }
  }
}
