/** Runs of the socket server: in which order, and when at the latest, connections are accepted. */
module UdsServerRuns {
  import opened LineSplitting
  import opened UdsFraming
  import opened UdsServer

  // ---------------------------------------------------------------- runs of the server

  /** The state the next poll finds, after some peers have connected. */
  function Arrived(s: Snapshot, before: seq<Peer>): Snapshot {
    s.(backlog := s.backlog + before, edge := s.edge || before != [])
  }

  /** Turn after turn, from the empty server on; a poll reports the edge if there is one. */
  ghost predicate IsRun(states: seq<Snapshot>, turns: seq<TurnRecord>) {
    && |states| == |turns| + 1
    && states[0] == Snapshot(map[], 0, false, [], 0, false)
    && forall i :: 0 <= i < |turns| ==> TurnAt(states, turns, i)
  }

  ghost predicate TurnAt(states: seq<Snapshot>, turns: seq<TurnRecord>, i: nat)
    requires i < |turns| == |states| - 1
  {
    var s := Arrived(states[i], turns[i].before);
    (s.edge ==> ServerReady in turns[i].events) && TurnOf(s, turns[i], states[i + 1])
  }

  /** Everybody who has connected before the poll of turn `n`, in order. */
  function AllArrived(turns: seq<TurnRecord>, n: nat): seq<Peer>
    requires n <= |turns|
  {
    if n == 0 then [] else AllArrived(turns, n - 1) + turns[n - 1].before + turns[n - 1].arrived
  }

  /** Everybody who has been accepted before turn `n`, in order. */
  function AllTaken(turns: seq<TurnRecord>, n: nat): seq<Peer>
    requires n <= |turns|
  {
    if n == 0 then [] else AllTaken(turns, n - 1) + turns[n - 1].taken
  }

  lemma {:induction false} RunSound(states: seq<Snapshot>, turns: seq<TurnRecord>, n: nat)
    requires IsRun(states, turns) && n <= |turns|
    ensures IsSound(states[n])
  {
    if n > 0 {
      assert TurnAt(states, turns, n - 1);
    }
  }

  /** Connections are accepted in the order they were made, and none is lost: the others still wait. */
  lemma {:induction false} FirstComeFirstServed(states: seq<Snapshot>, turns: seq<TurnRecord>, n: nat)
    requires IsRun(states, turns) && n <= |turns|
    ensures AllArrived(turns, n) == AllTaken(turns, n) + states[n].backlog
  {
    if n > 0 {
      var s, r := states[n - 1], turns[n - 1];
      FirstComeFirstServed(states, turns, n - 1);
      assert TurnAt(states, turns, n - 1);
      calc {
        AllArrived(turns, n);
      ==
        AllTaken(turns, n - 1) + s.backlog + r.before + r.arrived;
      == { Regroup(AllTaken(turns, n - 1), s.backlog, r.before); }
        AllTaken(turns, n - 1) + (s.backlog + r.before) + r.arrived;
      == { Regroup(AllTaken(turns, n - 1), s.backlog + r.before, r.arrived); }
        AllTaken(turns, n - 1) + (r.taken + states[n].backlog);
      == { Regroup(AllTaken(turns, n - 1), r.taken, states[n].backlog); }
        AllTaken(turns, n) + states[n].backlog;
      }
    }
  }

  /** How many of all peers have been announced by the end of turn `n`. */
  function Announced(states: seq<Snapshot>, turns: seq<TurnRecord>, n: nat): nat
    requires n <= |turns| && n < |states|
  {
    |AllTaken(turns, n)| + states[n].announced
  }

  lemma {:induction false} AnnouncedGrows(states: seq<Snapshot>, turns: seq<TurnRecord>, m: nat, n: nat)
    requires IsRun(states, turns) && m <= n <= |turns|
    ensures Announced(states, turns, m) <= Announced(states, turns, n)
    decreases n - m
  {
    if m < n {
      AnnouncedGrows(states, turns, m, n - 1);
      RunSound(states, turns, n - 1);
      assert TurnAt(states, turns, n - 1);
    }
  }

  /** Whoever connects before a poll has been announced once that poll has returned. */
  lemma {:induction false} PollAnnounces(states: seq<Snapshot>, turns: seq<TurnRecord>, n: nat)
    requires IsRun(states, turns) && n < |turns|
    ensures |AllArrived(turns, n) + turns[n].before| <= Announced(states, turns, n + 1)
  {
    var s := Arrived(states[n], turns[n].before);
    FirstComeFirstServed(states, turns, n);
    RunSound(states, turns, n);
    assert TurnAt(states, turns, n);
    assert AnnouncedBy(s, turns[n].events) == |s.backlog|;
  }

  lemma {:induction false} StaysSettled(states: seq<Snapshot>, turns: seq<TurnRecord>, m: nat, n: nat)
    requires IsRun(states, turns) && m <= n <= |turns| && IsSettled(states[m])
    requires forall k :: m <= k < n ==> !turns[k].failed
    ensures IsSettled(states[n])
    decreases n - m
  {
    if m < n {
      StaysSettled(states, turns, m, n - 1);
      assert IsSettled(Arrived(states[n - 1], turns[n - 1].before));
      assert TurnAt(states, turns, n - 1);
    }
  }

  lemma {:induction false} RoomMeansServed(states: seq<Snapshot>, turns: seq<TurnRecord>, m: nat, n: nat)
    requires IsRun(states, turns) && m <= n <= |turns| && IsSettled(states[m])
    requires forall k :: m <= k < n ==> !turns[k].failed
    requires |states[n].pool| < MAX_CONNECTIONS
    ensures Announced(states, turns, n) == |AllTaken(turns, n)|
  {
    StaysSettled(states, turns, m, n);
  }

  lemma {:induction false} TakenInOrder(states: seq<Snapshot>, turns: seq<TurnRecord>, n: nat)
    requires IsRun(states, turns) && n <= |turns|
    ensures AllTaken(turns, n) <= AllArrived(turns, n)
  {
    FirstComeFirstServed(states, turns, n);
  }

  /**
    Nobody is forgotten: peer `q`, who connected before the poll of turn `i`, is accepted at the latest
    in the first turn from then on that ends with room in the pool, if no accept fails from some settled
    state before it.
  */
  lemma {:induction false} ServedWhenThereIsRoom(states: seq<Snapshot>, turns: seq<TurnRecord>, m: nat, i: nat,
                                                 j: nat, q: nat)
    requires IsRun(states, turns) && i <= j < |turns| && q < |AllArrived(turns, i) + turns[i].before|
    requires m <= j && IsSettled(states[m]) && forall k :: m <= k <= j ==> !turns[k].failed
    requires |states[j + 1].pool| < MAX_CONNECTIONS
    ensures q < |AllTaken(turns, j + 1)| && AllTaken(turns, j + 1) <= AllArrived(turns, j + 1)
  {
    PollAnnounces(states, turns, i);
    AnnouncedGrows(states, turns, i + 1, j + 1);
    RoomMeansServed(states, turns, m, j + 1);
    TakenInOrder(states, turns, j + 1);
  }

  /** A failed accept can leave peers forgotten, but not past the next turn with a new connection or a freed slot. */
  lemma {:induction false} FailureHeals(states: seq<Snapshot>, turns: seq<TurnRecord>, n: nat)
    requires IsRun(states, turns) && n < |turns| && !turns[n].failed
    requires ServerReady in turns[n].events || |AfterEvents(states[n].pool, turns[n].events)| < |states[n].pool|
    ensures IsSettled(states[n + 1])
  {
    assert TurnAt(states, turns, n);
  }
}
