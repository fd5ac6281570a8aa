/** Throttled lookups and the cache of failed ones (src/limiters.rs, `AntiDosState`; src/ingestion.rs). */
module NegativeCache {
  import opened RateLimiter
  import opened Sequences

  const MAX_NEGATIVE_CACHE := 1000
  const MAX_LOOKUP_TOKENS := 10

  // ---------------------------------------------------------------- specification

  /** The set that is consulted and the queue that says what to evict. */
  datatype Cache = Cache(members: set<string>, order: seq<string>)

  const EMPTY := Cache({}, [])

  function Evict(c: Cache): Cache {
    if |c.members| >= MAX_NEGATIVE_CACHE && c.order != [] then Cache(c.members - {c.order[0]}, c.order[1..]) else c
  }

  function Insert(c: Cache, id: string): Cache {
    var e := Evict(c);
    Cache(e.members + {id}, e.order + [id])
  }

  function Elements(s: seq<string>): set<string> {
    set id | id in s
  }

  /** What a reader is told about an id that the container cache does not know. */
  datatype Verdict = KnownMiss | LookUp | Exhausted

  /** Asking about `id`: a remembered id takes no token, any other takes one if there is one. */
  function AskFor(c: Cache, id: string, now: int): Call {
    Call(now, id !in c.members)
  }

  function Answer(c: Cache, tokens: Window, id: string, now: int): Verdict {
    if id in c.members then KnownMiss
    else if Grants(tokens, AskFor(c, id, now), MAX_LOOKUP_TOKENS) then LookUp
    else Exhausted
  }

  // ---------------------------------------------------------------- the code

  class AntiDosState {
    var negativeCache: set<string>
    var negativeQueue: seq<string>
    var tokens: nat
    var lastRefill: int

    constructor (now: int)
      ensures Contents() == EMPTY && tokens == MAX_LOOKUP_TOKENS && lastRefill == now
    {
      negativeCache, negativeQueue, tokens, lastRefill := {}, [], MAX_LOOKUP_TOKENS, now;
    }

    function Contents(): Cache
      reads this
    {
      Cache(negativeCache, negativeQueue)
    }

    /** The tokens seen as the window of a limiter: one is used for each that is missing. */
    function Tokens(): Window
      reads this
      requires tokens <= MAX_LOOKUP_TOKENS
    {
      Window(lastRefill, MAX_LOOKUP_TOKENS - tokens)
    }

    /** The first critical section: what to do with an id the container cache does not know. */
    method Check(id: string, now: int) returns (v: Verdict)
      requires tokens <= MAX_LOOKUP_TOKENS && lastRefill <= now
      modifies this
      ensures Contents() == old(Contents()) && tokens <= MAX_LOOKUP_TOKENS && lastRefill <= now
      ensures Tokens() == After(old(Tokens()), AskFor(old(Contents()), id, now), MAX_LOOKUP_TOKENS)
      ensures v == Answer(old(Contents()), old(Tokens()), id, now)
      ensures v.KnownMiss? <==> id in negativeCache
      ensures var full := if now - old(lastRefill) >= SECOND then MAX_LOOKUP_TOKENS else old(tokens);
        tokens == (if v.LookUp? then full - 1 else full) && (v.Exhausted? <==> id !in negativeCache && full == 0)
      ensures lastRefill == if now - old(lastRefill) >= SECOND then now else old(lastRefill)
    {
      if now - lastRefill >= SECOND {
        tokens := MAX_LOOKUP_TOKENS;
        lastRefill := now;
      }
      if id in negativeCache {
        return KnownMiss;
      }
      if tokens > 0 {
        tokens := tokens - 1;
        return LookUp;
      }
      v := Exhausted;
    }

    /** The second critical section, after a lookup that found no container. */
    method RecordMiss(id: string)
      modifies this
      ensures Contents() == Insert(old(Contents()), id)
      ensures tokens == old(tokens) && lastRefill == old(lastRefill)
    {
      if |negativeCache| >= MAX_NEGATIVE_CACHE {
        if negativeQueue != [] {
          var oldest := negativeQueue[0];
          negativeQueue := negativeQueue[1..];
          negativeCache := negativeCache - {oldest};
        }
      }
      negativeCache := negativeCache + {id};
      negativeQueue := negativeQueue + [id];
    }
  }

  // ---------------------------------------------------------------- several readers

  /**
    The readers that share cache and tokens. Check and insert take the lock one after the other, so
    between them a reader's lookup is pending. `misses` are the failed lookups in the order of their
    inserts, `repeats` counts the inserts of an id that was already a member.
  */
  datatype Readers = Readers(
    cache: Cache,
    tokens: Window,
    now: int,
    pending: map<nat, string>,
    misses: seq<string>,
    repeats: nat)

  /** A reader asks about an id, or the lookup it has started finds a container or none. */
  datatype Step = Ask(reader: nat, id: string, time: int) | Found(reader: nat) | Missed(reader: nat)

  function Start(now: int): Readers {
    Readers(EMPTY, Window(now, 0), now, map[], [], 0)
  }

  predicate Enabled(s: Readers, step: Step) {
    match step
    case Ask(r, _, time) => r !in s.pending && s.now <= time
    case Found(r) => r in s.pending
    case Missed(r) => r in s.pending
  }

  /** The step starts a lookup of the engine. */
  predicate LooksUp(s: Readers, step: Step) {
    step.Ask? && Answer(s.cache, s.tokens, step.id, step.time).LookUp?
  }

  function Apply(s: Readers, step: Step): Readers
    requires Enabled(s, step)
  {
    match step
    case Ask(r, id, time) =>
      s.(tokens := After(s.tokens, AskFor(s.cache, id, time), MAX_LOOKUP_TOKENS),
         now := time,
         pending := if LooksUp(s, step) then s.pending[r := id] else s.pending)
    case Found(r) => s.(pending := s.pending - {r})
    case Missed(r) =>
      var id := s.pending[r];
      s.(cache := Insert(s.cache, id), pending := s.pending - {r}, misses := s.misses + [id],
         repeats := s.repeats + if id in s.cache.members then 1 else 0)
  }

  ghost predicate IsPath(steps: seq<Step>, states: seq<Readers>) {
    |states| == |steps| + 1 && forall i :: 0 <= i < |steps| ==> StepAt(steps, states, i)
  }

  ghost predicate StepAt(steps: seq<Step>, states: seq<Readers>, i: nat)
    requires i < |steps| == |states| - 1
  {
    Enabled(states[i], steps[i]) && states[i + 1] == Apply(states[i], steps[i])
  }

  ghost predicate IsRun(steps: seq<Step>, states: seq<Readers>) {
    IsPath(steps, states) && states[0] == Start(states[0].now)
  }

  // ---------------------------------------------------------------- how often the engine is asked

  /** How many lookups the readers start at times from `a` to `b`, both included. */
  function Lookups(steps: seq<Step>, states: seq<Readers>, a: int, b: int): nat
    requires |states| == |steps| + 1
    decreases |steps|
  {
    if steps == [] then 0
    else
      var first := if LooksUp(states[0], steps[0]) && a <= steps[0].time <= b then 1 else 0;
      first + Lookups(steps[1..], states[1..], a, b)
  }

  /** What the readers ask of the tokens. */
  function Asked(steps: seq<Step>, states: seq<Readers>): seq<Call>
    requires |states| == |steps| + 1
    decreases |steps|
  {
    if steps == [] then []
    else
      var later := Asked(steps[1..], states[1..]);
      if steps[0].Ask? then [AskFor(states[0].cache, steps[0].id, steps[0].time)] + later else later
  }

  lemma PathRest(steps: seq<Step>, states: seq<Readers>)
    requires IsPath(steps, states) && steps != []
    ensures IsPath(steps[1..], states[1..]) && StepAt(steps, states, 0)
  {
    forall i: nat | i < |steps| - 1 ensures StepAt(steps[1..], states[1..], i) {
      assert StepAt(steps, states, i + 1);
    }
  }

  lemma {:induction false} AskedInOrder(steps: seq<Step>, states: seq<Readers>)
    requires IsPath(steps, states)
    ensures forall i :: 0 <= i < |Asked(steps, states)| ==> states[0].now <= Asked(steps, states)[i].time
    ensures forall i, j :: 0 <= i < j < |Asked(steps, states)| ==>
      Asked(steps, states)[i].time <= Asked(steps, states)[j].time
    decreases |steps|
  {
    if steps != [] {
      PathRest(steps, states);
      AskedInOrder(steps[1..], states[1..]);
    }
  }

  lemma {:induction false} LookupsAreGranted(steps: seq<Step>, states: seq<Readers>, a: int, b: int)
    requires IsPath(steps, states)
    ensures Lookups(steps, states, a, b) == Granted(states[0].tokens, Asked(steps, states), MAX_LOOKUP_TOKENS, a, b)
    decreases |steps|
  {
    if steps != [] {
      var later := Asked(steps[1..], states[1..]);
      PathRest(steps, states);
      LookupsAreGranted(steps[1..], states[1..], a, b);
      if steps[0].Ask? {
        var ask := AskFor(states[0].cache, steps[0].id, steps[0].time);
        GrantedNext(states[0].tokens, ask, later, MAX_LOOKUP_TOKENS, a, b);
      }
    }
  }

  /**
    However many readers there are and however their steps interleave, an interval sees at most ten
    lookups of the engine for each second it begins, and ten more.
  */
  lemma LookupsBounded(steps: seq<Step>, states: seq<Readers>, a: int, b: int)
    requires IsRun(steps, states) && a <= b
    ensures Lookups(steps, states, a, b) <= MAX_LOOKUP_TOKENS * (CeilSeconds(b - a) + 1)
  {
    LookupsAreGranted(steps, states, a, b);
    AskedInOrder(steps, states);
    AtMost(states[0].tokens, Asked(steps, states), MAX_LOOKUP_TOKENS, a, b);
  }

  // ---------------------------------------------------------------- any number of readers

  function Max(a: int, b: int): int {
    if a < b then b else a
  }

  /** Set size, or the ceiling if that is more, and the queue entries in excess of the set. */
  function Potential(c: Cache): int {
    Max(|c.members|, MAX_NEGATIVE_CACHE) + |c.order| - |c.members|
  }

  ghost predicate Covered(c: Cache) {
    c.members <= Elements(c.order)
  }

  lemma InsertCovered(c: Cache, id: string)
    requires Covered(c)
    ensures Covered(Insert(c, id))
  {
    forall x | x in Insert(c, id).members ensures x in Insert(c, id).order {
      if x != id {
        assert x in c.order;
        assert Evict(c) != c ==> c.order == [c.order[0]] + c.order[1..];
      }
    }
  }

  lemma InsertPotential(c: Cache, id: string)
    requires Covered(c)
    ensures Potential(Insert(c, id)) <= Potential(c) + if id in c.members then 1 else 0
  {
    var e := Evict(c);
    assert |e.members + {id}| == |e.members| + if id in e.members then 0 else 1;
    MembersFit(c);
    if |c.members| >= MAX_NEGATIVE_CACHE {
      var oldest := c.order[0];
      assert |c.members - {oldest}| == |c.members| - if oldest in c.members then 1 else 0;
    }
  }

  /**
    With any number of readers the set stays within the queue, and both stay within the ceiling and
    the number of repeated inserts.
  */
  lemma {:induction false} SizesBounded(steps: seq<Step>, states: seq<Readers>, i: nat)
    requires IsRun(steps, states) && i < |states|
    ensures var s := states[i];
      && s.cache.members <= Elements(s.cache.order)
      && Potential(s.cache) <= MAX_NEGATIVE_CACHE + s.repeats
      && |s.cache.members| <= MAX_NEGATIVE_CACHE + s.repeats
      && |s.cache.order| <= MAX_NEGATIVE_CACHE + s.repeats
  {
    if i > 0 {
      SizesBounded(steps, states, i - 1);
      assert StepAt(steps, states, i - 1);
      if steps[i - 1].Missed? {
        var c, id := states[i - 1].cache, states[i - 1].pending[steps[i - 1].reader];
        InsertCovered(c, id);
        InsertPotential(c, id);
      }
    }
    MembersFit(states[i].cache);
  }

  lemma MembersFit(c: Cache)
    requires Covered(c)
    ensures |c.members| <= |c.order|
  {
    ElementsFit(c.order);
    SubsetFits(c.members, Elements(c.order));
  }

  lemma {:induction false} ElementsFit(s: seq<string>)
    ensures |Elements(s)| <= |s|
  {
    if s != [] {
      var n := |s| - 1;
      ElementsFit(s[..n]);
      assert Elements(s) == Elements(s[..n]) + {s[n]};
    }
  }

  lemma SubsetFits(a: set<string>, b: set<string>)
    requires a <= b
    ensures |a| <= |b|
  {
    assert b == a + (b - a);
  }

  // ---------------------------------------------------------------- one reader

  function LastOf(s: seq<string>, n: nat): seq<string> {
    if |s| <= n then s else s[|s| - n..]
  }

  /** What holds with one reader: set and queue agree, and are the most recent failed lookups. */
  ghost predicate Exact(s: Readers) {
    && s.cache.order == LastOf(s.misses, MAX_NEGATIVE_CACHE)
    && s.cache.members == Elements(s.cache.order)
    && Distinct(s.cache.order)
    && (forall r :: r in s.pending ==> r == 0 && s.pending[r] !in s.cache.members)
    && s.repeats == 0
  }

  lemma {:induction false} DistinctSize(s: seq<string>)
    requires Distinct(s)
    ensures |Elements(s)| == |s|
  {
    if s != [] {
      var n := |s| - 1;
      DistinctSize(s[..n]);
      assert Elements(s) == Elements(s[..n]) + {s[n]};
    }
  }

  lemma AppendDistinct(s: seq<string>, id: string)
    requires Distinct(s) && id !in s
    ensures Distinct(s + [id]) && Elements(s + [id]) == Elements(s) + {id}
  {
  }

  lemma DropDistinct(s: seq<string>)
    requires Distinct(s) && s != []
    ensures Distinct(s[1..]) && Elements(s[1..]) == Elements(s) - {s[0]}
  {
    assert s == [s[0]] + s[1..];
  }

  lemma LastOfMore(s: seq<string>, id: string)
    ensures LastOf(s + [id], MAX_NEGATIVE_CACHE) ==
      var last := LastOf(s, MAX_NEGATIVE_CACHE);
      if |s| < MAX_NEGATIVE_CACHE then last + [id] else last[1..] + [id]
  {
  }

  lemma ElementsMore(s: seq<string>, id: string)
    ensures Elements(s + [id]) == Elements(s) + {id}
  {
  }

  lemma {:induction false} FullHoldsMore(c: Cache, misses: seq<string>, id: string)
    requires |misses| >= MAX_NEGATIVE_CACHE && Distinct(c.order)
    requires c.order == LastOf(misses, MAX_NEGATIVE_CACHE) && c.members == Elements(c.order)
    ensures Insert(c, id).order == LastOf(misses + [id], MAX_NEGATIVE_CACHE)
    ensures Insert(c, id).members == Elements(Insert(c, id).order)
  {
    LastOfMore(misses, id);
    DistinctSize(c.order);
    DropDistinct(c.order);
    ElementsMore(c.order[1..], id);
  }

  lemma {:induction false} FillingHoldsMore(c: Cache, misses: seq<string>, id: string)
    requires |misses| < MAX_NEGATIVE_CACHE
    requires c.order == misses && c.members == Elements(c.order)
    ensures Insert(c, id).order == misses + [id] && Insert(c, id).members == Elements(misses + [id])
  {
    ElementsFit(c.order);
    ElementsMore(c.order, id);
  }

  lemma {:induction false} InsertExact(c: Cache, misses: seq<string>, id: string)
    requires c.order == LastOf(misses, MAX_NEGATIVE_CACHE) && c.members == Elements(c.order)
    requires Distinct(c.order) && id !in c.members
    ensures var d := Insert(c, id);
      d.order == LastOf(misses + [id], MAX_NEGATIVE_CACHE) && d.members == Elements(d.order) && Distinct(d.order)
  {
    if |misses| >= MAX_NEGATIVE_CACHE {
      FullHoldsMore(c, misses, id);
      DropDistinct(c.order);
      LastOfMore(misses, id);
      AppendDistinct(c.order[1..], id);
    } else {
      FillingHoldsMore(c, misses, id);
      AppendDistinct(c.order, id);
    }
  }

  /**
    With one reader the set is the queue without duplicates, and the queue is exactly the last
    failed lookups, a thousand at most.
  */
  lemma {:induction false} OneReaderExact(steps: seq<Step>, states: seq<Readers>, i: nat)
    requires IsRun(steps, states) && i < |states|
    requires forall j :: 0 <= j < |steps| ==> steps[j].reader == 0
    ensures Exact(states[i])
  {
    if i > 0 {
      OneReaderExact(steps, states, i - 1);
      assert StepAt(steps, states, i - 1);
      var s, step := states[i - 1], steps[i - 1];
      if step.Missed? {
        InsertExact(s.cache, s.misses, s.pending[0]);
      }
    }
  }

  // ---------------------------------------------------------------- exactly when the ceiling holds

  function Fold(misses: seq<string>): Cache {
    if misses == [] then EMPTY else Insert(Fold(misses[..|misses| - 1]), misses[|misses| - 1])
  }

  lemma {:induction false} FoldAppend(misses: seq<string>, id: string)
    ensures Fold(misses + [id]) == Insert(Fold(misses), id)
  {
    assert (misses + [id])[..|misses|] == misses;
  }

  lemma {:induction false} StepFolds(s: Readers, step: Step)
    requires Enabled(s, step) && s.cache == Fold(s.misses)
    ensures Apply(s, step).cache == Fold(Apply(s, step).misses)
  {
    match step
    case Ask(_, _, _) =>
    case Found(_) =>
    case Missed(r) => FoldAppend(s.misses, s.pending[r]);
  }

  /** Whatever the readers do, the cache is the fold of the failed lookups, in the order of their inserts. */
  lemma {:induction false} CacheIsFold(steps: seq<Step>, states: seq<Readers>, i: nat)
    requires IsRun(steps, states) && i < |states|
    ensures states[i].cache == Fold(states[i].misses)
  {
    if i > 0 {
      CacheIsFold(steps, states, i - 1);
      assert StepAt(steps, states, i - 1);
      StepFolds(states[i - 1], steps[i - 1]);
    }
  }

  /** Each number of failed lookups up to that of a state was that of some state before it. */
  lemma {:induction false} MissesAddUp(steps: seq<Step>, states: seq<Readers>, i: nat, n: nat) returns (j: nat)
    requires IsRun(steps, states) && i < |states| && n <= |states[i].misses|
    ensures j <= i && states[j].misses == states[i].misses[..n]
  {
    if n == |states[i].misses| {
      j := i;
    } else {
      assert StepAt(steps, states, i - 1);
      j := MissesAddUp(steps, states, i - 1, n);
    }
  }

  predicate WithinCeiling(c: Cache) {
    |c.members| <= MAX_NEGATIVE_CACHE && |c.order| <= MAX_NEGATIVE_CACHE
  }

  /** No id failed twice among the thousand lookups before lookup `k` failed. */
  predicate FreshWindow(misses: seq<string>, k: nat)
    requires MAX_NEGATIVE_CACHE <= k <= |misses|
  {
    Distinct(misses[k - MAX_NEGATIVE_CACHE..k])
  }

  ghost predicate FreshWindows(misses: seq<string>) {
    forall k :: MAX_NEGATIVE_CACHE <= k < |misses| ==> FreshWindow(misses, k)
  }

  lemma FreshInFront(misses: seq<string>, n: nat, k: nat)
    requires MAX_NEGATIVE_CACHE <= k <= n <= |misses|
    ensures FreshWindow(misses[..n], k) == FreshWindow(misses, k)
  {
    assert misses[..n][k - MAX_NEGATIVE_CACHE..k] == misses[k - MAX_NEGATIVE_CACHE..k];
  }

  lemma {:induction false} FreshPrefix(misses: seq<string>, n: nat)
    requires n <= |misses| && FreshWindows(misses)
    ensures FreshWindows(misses[..n])
  {
    forall k | MAX_NEGATIVE_CACHE <= k < n ensures FreshWindow(misses[..n], k) {
      FreshInFront(misses, n, k);
      assert FreshWindow(misses, k);
    }
  }

  /** A history with a stale window has a first one. */
  lemma {:induction false} FirstStale(misses: seq<string>) returns (k: nat)
    requires !FreshWindows(misses)
    ensures MAX_NEGATIVE_CACHE <= k < |misses| && !FreshWindow(misses, k) && FreshWindows(misses[..k])
    decreases |misses|
  {
    k :| MAX_NEGATIVE_CACHE <= k < |misses| && !FreshWindow(misses, k);
    if !FreshWindows(misses[..k]) {
      var j := FirstStale(misses[..k]);
      FreshInFront(misses, k, j);
      assert misses[..k][..j] == misses[..j];
      k := j;
    }
  }

  /** While windows are fresh the queue holds the last failed lookups, and the set its elements. */
  ghost predicate HoldsLast(misses: seq<string>) {
    Fold(misses).order == LastOf(misses, MAX_NEGATIVE_CACHE) && Fold(misses).members == Elements(Fold(misses).order)
  }

  lemma {:induction false} FreshHoldsLast(misses: seq<string>)
    requires FreshWindows(misses)
    ensures HoldsLast(misses)
    decreases |misses|
  {
    if misses != [] {
      var n := |misses| - 1;
      var front, id := misses[..n], misses[n];
      FreshPrefix(misses, n);
      FreshHoldsLast(front);
      assert misses == front + [id];
      if n >= MAX_NEGATIVE_CACHE {
        FreshInFront(misses, n, n);
        assert FreshWindow(misses, n);
        assert LastOf(front, MAX_NEGATIVE_CACHE) == misses[n - MAX_NEGATIVE_CACHE..n];
        FullHoldsMore(Fold(front), front, id);
      } else {
        FillingHoldsMore(Fold(front), front, id);
      }
    }
  }

  lemma HoldsWithinCeiling(misses: seq<string>)
    requires HoldsLast(misses)
    ensures WithinCeiling(Fold(misses))
  {
    ElementsFit(Fold(misses).order);
  }

  lemma {:induction false} RepeatedMeansFewer(s: seq<string>)
    requires !Distinct(s)
    ensures |Elements(s)| < |s|
  {
    var n := |s| - 1;
    assert s == s[..n] + [s[n]];
    ElementsMore(s[..n], s[n]);
    if Distinct(s[..n]) {
      assert s[n] in Elements(s[..n]);
      ElementsFit(s[..n]);
    } else {
      RepeatedMeansFewer(s[..n]);
    }
  }

  lemma {:induction false} FoldMore(misses: seq<string>, k: nat)
    requires k < |misses|
    ensures Fold(misses[..k + 1]) == Insert(Fold(misses[..k]), misses[k])
  {
    assert misses[..k + 1][..k] == misses[..k];
  }

  lemma {:induction false} StaleQueue(misses: seq<string>, k: nat)
    requires MAX_NEGATIVE_CACHE <= k < |misses| && !FreshWindow(misses, k) && FreshWindows(misses[..k])
    ensures var c := Fold(misses[..k]); |c.order| == MAX_NEGATIVE_CACHE && |c.members| < MAX_NEGATIVE_CACHE
  {
    FreshHoldsLast(misses[..k]);
    assert LastOf(misses[..k], MAX_NEGATIVE_CACHE) == misses[k - MAX_NEGATIVE_CACHE..k];
    RepeatedMeansFewer(misses[k - MAX_NEGATIVE_CACHE..k]);
  }

  /** The failure that follows the first stale window overflows the queue: nothing is evicted for it. */
  lemma {:induction false} StaleOverflows(misses: seq<string>, k: nat)
    requires MAX_NEGATIVE_CACHE <= k < |misses| && !FreshWindow(misses, k) && FreshWindows(misses[..k])
    ensures !WithinCeiling(Fold(misses[..k + 1]))
  {
    StaleQueue(misses, k);
    FoldMore(misses, k);
  }

  lemma FreshStaysWithin(steps: seq<Step>, states: seq<Readers>, i: nat)
    requires IsRun(steps, states) && i < |states| && FreshWindows(states[|steps|].misses)
    ensures WithinCeiling(states[i].cache)
  {
    CacheIsFold(steps, states, i);
    MissesGrow(steps, states, i, |steps|);
    FreshPrefix(states[|steps|].misses, |states[i].misses|);
    assert states[i].misses == states[|steps|].misses[..|states[i].misses|];
    FreshHoldsLast(states[i].misses);
    HoldsWithinCeiling(states[i].misses);
  }

  lemma StaleGoesOver(steps: seq<Step>, states: seq<Readers>) returns (j: nat)
    requires IsRun(steps, states) && !FreshWindows(states[|steps|].misses)
    ensures j < |states| && !WithinCeiling(states[j].cache)
  {
    var misses := states[|steps|].misses;
    var k := FirstStale(misses);
    j := MissesAddUp(steps, states, |steps|, k + 1);
    assert states[j].cache == Fold(misses[..k + 1]) by { CacheIsFold(steps, states, j); }
    StaleOverflows(misses, k);
  }

  /**
    Over any run of any number of readers, set and queue stay within a thousand entries in every state
    if and only if no id failed twice within a thousand lookups that failed in a row and were followed
    by another.
  */
  lemma CeilingExactly(steps: seq<Step>, states: seq<Readers>)
    requires IsRun(steps, states)
    ensures (forall i :: 0 <= i < |states| ==> WithinCeiling(states[i].cache)) <==> FreshWindows(states[|steps|].misses)
  {
    if FreshWindows(states[|steps|].misses) {
      forall i: nat | i < |states| ensures WithinCeiling(states[i].cache) {
        FreshStaysWithin(steps, states, i);
      }
    } else {
      var j := StaleGoesOver(steps, states);
    }
  }

  lemma {:induction false} MissesGrow(steps: seq<Step>, states: seq<Readers>, i: nat, j: nat)
    requires IsRun(steps, states) && i <= j < |states|
    ensures states[i].misses <= states[j].misses
    decreases j - i
  {
    if i < j {
      MissesGrow(steps, states, i, j - 1);
      assert StepAt(steps, states, j - 1);
    }
  }

  // ---------------------------------------------------------------- a run that exceeds it

  /** Different names, one for each number. */
  function Name(n: nat): string {
    seq(n, _ => 'a')
  }

  /** The readers after `n` names were looked up in vain, when the first was looked up twice at once. */
  ghost predicate Filled(s: Readers, n: nat) {
    && n < MAX_NEGATIVE_CACHE && s.pending == map[] && s.repeats == 1
    && s.cache.members == (set k | 0 <= k <= n :: Name(k))
    && s.cache.order == [Name(0), Name(0)] + seq(n, i requires 0 <= i => Name(i + 1))
  }

  lemma NamesDiffer(j: nat, k: nat)
    ensures Name(j) == Name(k) <==> j == k
  {
    assert |Name(j)| == j && |Name(k)| == k;
  }

  lemma {:induction false} NamesCount(n: nat)
    ensures |set k | 0 <= k <= n :: Name(k)| == n + 1
  {
    var all := set k | 0 <= k <= n :: Name(k);
    if n == 0 {
      assert all == {Name(0)};
    } else {
      NamesCount(n - 1);
      var fewer := set k | 0 <= k <= n - 1 :: Name(k);
      assert all == fewer + {Name(n)};
      forall k | 0 <= k <= n - 1 ensures Name(k) != Name(n) { NamesDiffer(k, n); }
    }
  }

  lemma RunMore(steps: seq<Step>, states: seq<Readers>, step: Step) returns (more: seq<Step>, after: seq<Readers>)
    requires IsRun(steps, states) && Enabled(states[|steps|], step)
    ensures more == steps + [step] && IsRun(more, after)
    ensures after[|more|] == Apply(states[|steps|], step)
  {
    more, after := steps + [step], states + [Apply(states[|steps|], step)];
    forall i: nat | i < |more| ensures StepAt(more, after, i) {
      if i < |steps| { assert StepAt(steps, states, i); }
    }
  }

  lemma {:induction false} TokensNotAhead(steps: seq<Step>, states: seq<Readers>, i: nat)
    requires IsRun(steps, states) && i < |states|
    ensures states[i].tokens.start <= states[i].now
  {
    if i > 0 {
      TokensNotAhead(steps, states, i - 1);
      assert StepAt(steps, states, i - 1);
    }
  }

  /** A second later a reader can look up any id that is not remembered. */
  lemma RunAsk(steps: seq<Step>, states: seq<Readers>, r: nat, id: string)
    returns (more: seq<Step>, after: seq<Readers>)
    requires IsRun(steps, states) && r !in states[|steps|].pending && id !in states[|steps|].cache.members
    ensures IsRun(more, after)
    ensures var s, t := states[|steps|], after[|more|];
      t == s.(pending := s.pending[r := id], tokens := t.tokens, now := t.now)
  {
    TokensNotAhead(steps, states, |steps|);
    more, after := RunMore(steps, states, Ask(r, id, states[|steps|].now + SECOND));
  }

  /** One reader looks up `id` in vain, undisturbed. */
  lemma RunMiss(steps: seq<Step>, states: seq<Readers>, id: string) returns (more: seq<Step>, after: seq<Readers>)
    requires IsRun(steps, states) && states[|steps|].pending == map[] && id !in states[|steps|].cache.members
    ensures IsRun(more, after)
    ensures var s, t := states[|steps|], after[|more|];
      t == s.(cache := Insert(s.cache, id), misses := s.misses + [id], tokens := t.tokens, now := t.now)
  {
    more, after := RunAsk(steps, states, 0, id);
    more, after := RunMore(more, after, Missed(0));
    assert map[0 := id] - {0} == map[];
  }

  /** Two readers start the same lookup before either has failed. */
  lemma Race() returns (steps: seq<Step>, states: seq<Readers>)
    ensures IsRun(steps, states) && Filled(states[|steps|], 0)
  {
    steps, states := RunAsk([], [Start(0)], 0, Name(0));
    steps, states := RunAsk(steps, states, 1, Name(0));
    steps, states := RunMore(steps, states, Missed(0));
    assert EMPTY.members + {Name(0)} == {Name(0)};
    steps, states := RunMore(steps, states, Missed(1));
    assert states[|steps|].pending == map[];
    assert {Name(0)} == (set k | 0 <= k <= 0 :: Name(k));
  }

  lemma FillOne(s: Readers, n: nat, t: Readers)
    requires Filled(s, n) && n + 1 < MAX_NEGATIVE_CACHE
    requires t == s.(cache := Insert(s.cache, Name(n + 1)), misses := t.misses, tokens := t.tokens, now := t.now)
    ensures Filled(t, n + 1)
  {
    NamesCount(n);
    assert s.cache.members + {Name(n + 1)} == (set k | 0 <= k <= n + 1 :: Name(k));
  }

  lemma NextNameUnknown(s: Readers, n: nat)
    requires Filled(s, n)
    ensures Name(n + 1) !in s.cache.members
  {
    forall k | 0 <= k <= n ensures Name(k) != Name(n + 1) { NamesDiffer(k, n + 1); }
  }

  lemma {:induction false} FillUp(n: nat) returns (steps: seq<Step>, states: seq<Readers>)
    requires n < MAX_NEGATIVE_CACHE
    ensures IsRun(steps, states) && Filled(states[|steps|], n)
  {
    if n == 0 {
      steps, states := Race();
    } else {
      steps, states := FillUp(n - 1);
      var s := states[|steps|];
      NextNameUnknown(s, n - 1);
      steps, states := RunMiss(steps, states, Name(n));
      FillOne(s, n - 1, states[|steps|]);
    }
  }

  /** Two readers that race for the same id once can later drive both sizes past the ceiling. */
  lemma CeilingExceeded()
    ensures exists steps: seq<Step>, states: seq<Readers> ::
      && IsRun(steps, states)
      && states[|steps|].repeats == 1
      && |states[|steps|].cache.members| == MAX_NEGATIVE_CACHE + 1
      && |states[|steps|].cache.order| == MAX_NEGATIVE_CACHE + 1
  {
    var n := MAX_NEGATIVE_CACHE - 1;
    var steps, states := FillUp(n);
    var s := states[|steps|];
    NamesCount(n);
    forall k: nat ensures Name(k) in s.cache.members <==> k <= n {
      if Name(k) in s.cache.members {
        var j: nat :| j <= n && Name(k) == Name(j);
        NamesDiffer(k, j);
      }
    }
    steps, states := RunMiss(steps, states, Name(n + 1));
    var t := states[|steps|];
    NamesDiffer(0, n + 1);
    NamesDiffer(0, n + 2);
    NamesDiffer(n + 1, n + 2);
    assert t.cache.members == s.cache.members - {Name(0)} + {Name(n + 1)};
    assert |t.cache.members| == MAX_NEGATIVE_CACHE;
    assert t.cache.order[0] == Name(0);
    steps, states := RunMiss(steps, states, Name(n + 2));
    var u := states[|steps|];
    assert t.cache.members - {Name(0)} == t.cache.members;
    assert u.cache.members == t.cache.members + {Name(n + 2)};
  }
}
