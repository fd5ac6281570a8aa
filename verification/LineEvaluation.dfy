/**
  One line on its way to the workers (src/ingestion.rs, `evaluate_line_signatures`): limiter, identity,
  container name, throttled lookup, verdict, messages; and what a whole run of lines can cause. One
  reader thread is followed here.
*/
module LineEvaluation {
  import opened Wrappers
  import opened Playbook
  import opened Manifests
  import opened Signatures
  import opened Containment
  import opened RateLimiter
  import NegativeCache
  import Sequences

  const FALLBACK_LENGTH := 12

  /**
    A line, with what the outside answers about it: which patterns match, the id its file or socket
    gives it, the id the extractor captures, the engine's answer to a lookup, and the clock.
  */
  datatype Line = Line(
    text: string,
    matches: string -> bool,
    sourceId: Option<string>,
    fromFile: bool,
    captured: Option<string>,
    engine: Option<string>,
    time: int,
    lookupTime: int)

  /** Where the name a verdict uses comes from. */
  datatype Source = Cached | Engine | Fallback

  datatype Outcome =
    | Ignored
    | Throttled
    | Unidentified
    | KnownMiss
    | LookupFailed
    | Judged(source: Source, target: string, name: string, messages: seq<Message>)

  /** What evaluating lines reads and changes. */
  datatype Gate = Gate(window: Window, tokens: Window, misses: NegativeCache.Cache, known: map<string, string>)

  // ---------------------------------------------------------------- specification

  function Identity(l: Line): Option<string> {
    if l.sourceId.Some? then l.sourceId else if l.fromFile then l.captured else None
  }

  predicate Abbreviates(id: string, long: string) {
    |id| <= |long| && long[..|id|] == id
  }

  /** The id, or a longer one it abbreviates, is in the container cache. */
  predicate IsKnown(known: map<string, string>, id: string) {
    exists long :: long in known && Abbreviates(id, long)
  }

  /** The name of `id` itself or, if it is not there, of some known id it abbreviates. */
  ghost predicate NameOf(known: map<string, string>, id: string, name: string) {
    if id in known then name == known[id]
    else exists long :: long in known && Abbreviates(id, long) && name == known[long]
  }

  function Unsynced(id: string): string {
    "UNSYNCED_ID_" + id[..if |id| < FALLBACK_LENGTH then |id| else FALLBACK_LENGTH]
  }

  predicate Aligned(c: Compiled) {
    |c.patterns| == |c.metadata|
  }

  ghost function Messages(c: Compiled, l: Line, name: string): seq<Message>
    requires Aligned(c)
  {
    MessagesOf(Decide(c, name, HitsOf(c.patterns, l.matches)), l.fromFile, l.text)
  }

  /** A lookup of an id that is not known: refused by the cache, answered by the engine, or not made. */
  ghost predicate Looks(c: Compiled, g: Gate, l: Line, id: string, o: Outcome, h: Gate)
    requires Aligned(c)
  {
    var call := Call(l.lookupTime, id !in g.misses.members);
    && h.window == g.window
    && h.tokens == After(g.tokens, call, NegativeCache.MAX_LOOKUP_TOKENS)
    && if id in g.misses.members then
         o == KnownMiss && h.misses == g.misses && h.known == g.known
       else if !Grants(g.tokens, call, NegativeCache.MAX_LOOKUP_TOKENS) then
         o == Judged(Fallback, Unsynced(id), id, Messages(c, l, id)) && h.misses == g.misses && h.known == g.known
       else if l.engine.None? then
         o == LookupFailed && h.misses == NegativeCache.Insert(g.misses, id) && h.known == g.known
       else
         && o == Judged(Engine, id, l.engine.value, Messages(c, l, l.engine.value))
         && h.misses == g.misses && h.known == g.known[id := l.engine.value]
  }

  ghost predicate Evaluates(c: Compiled, max: nat, g: Gate, l: Line, o: Outcome, h: Gate)
    requires Aligned(c)
  {
    if HitsOf(c.patterns, l.matches) == [] then
      o == Ignored && h == g
    else if !Grants(g.window, Call(l.time, true), max) then
      o == Throttled && h == g.(window := After(g.window, Call(l.time, true), max))
    else
      var open := g.(window := After(g.window, Call(l.time, true), max));
      match Identity(l)
      case None => o == Unidentified && h == open
      case Some(id) =>
        if IsKnown(g.known, id) then
          && h == open && o.Judged? && NameOf(g.known, id, o.name)
          && o == Judged(Cached, id, o.name, Messages(c, l, o.name))
        else Looks(c, open, l, id, o, h)
  }

  // ---------------------------------------------------------------- the code

  class LineEvaluator {
    const compiled: Compiled
    const limiter: GlobalRateLimiter
    const antiDos: NegativeCache.AntiDosState
    var known: map<string, string>

    ghost predicate Valid()
      reads this, limiter, antiDos
    {
      && Aligned(compiled)
      && limiter.window.used <= limiter.maxPerSecond
      && antiDos.tokens <= NegativeCache.MAX_LOOKUP_TOKENS
    }

    ghost function State(): Gate
      reads this, limiter, antiDos
      requires Valid()
    {
      Gate(limiter.window, antiDos.Tokens(), antiDos.Contents(), known)
    }

    constructor (compiled: Compiled, known: map<string, string>, maxPerSecond: nat, now: int)
      requires Aligned(compiled)
      ensures Valid() && fresh(limiter) && fresh(antiDos)
      ensures this.compiled == compiled && limiter.maxPerSecond == maxPerSecond
      ensures State() == Gate(Window(now, 0), Window(now, 0), NegativeCache.EMPTY, known)
    {
      this.compiled, this.known := compiled, known;
      limiter := new GlobalRateLimiter(maxPerSecond, now);
      antiDos := new NegativeCache.AntiDosState(now);
    }

    /** The container cache: the id itself, else any known id it abbreviates. */
    method FindName(id: string) returns (name: Option<string>)
      ensures name.Some? <==> IsKnown(known, id)
      ensures name.Some? ==> NameOf(known, id, name.value)
      ensures id in known ==> name == Some(known[id])
      ensures name.None? <==> forall long :: long in known ==> !(id <= long)
      ensures name.Some? ==> exists long :: long in known && id <= long && name.value == known[long]
    {
      if id in known {
        assert Abbreviates(id, id);
        return Some(known[id]);
      }
      name := None;
      var todo := known.Keys;
      while todo != {}
        invariant todo <= known.Keys
        invariant forall long :: long in known.Keys - todo ==> !Abbreviates(id, long)
      {
        var long :| long in todo;
        if Abbreviates(id, long) {
          return Some(known[long]);
        }
        todo := todo - {long};
      }
    }

    method Judge(l: Line, hits: seq<nat>, source: Source, target: string, name: string) returns (o: Outcome)
      requires Valid() && hits == HitsOf(compiled.patterns, l.matches)
      ensures o == Judged(source, target, name, Messages(compiled, l, name))
    {
      var verdict := Signatures.Evaluate(compiled, name, hits);
      var messages := Dispatch(verdict, l.fromFile, l.text);
      o := Judged(source, target, name, messages);
    }

    method Look(l: Line, hits: seq<nat>, id: string) returns (o: Outcome)
      requires Valid() && hits == HitsOf(compiled.patterns, l.matches) && antiDos.lastRefill <= l.lookupTime
      modifies this`known, antiDos
      ensures Valid() && antiDos.lastRefill <= l.lookupTime
      ensures Looks(compiled, old(State()), l, id, o, State())
    {
      var v := antiDos.Check(id, l.lookupTime);
      match v {
        case KnownMiss => o := KnownMiss;
        case Exhausted => o := Judge(l, hits, Fallback, Unsynced(id), id);
        case LookUp =>
          if l.engine.Some? {
            known := known[id := l.engine.value];
            o := Judge(l, hits, Engine, id, l.engine.value);
          } else {
            antiDos.RecordMiss(id);
            o := LookupFailed;
          }
      }
    }

    method Evaluate(l: Line) returns (o: Outcome)
      requires Valid() && limiter.window.start <= l.time && antiDos.lastRefill <= l.lookupTime
      modifies this`known, limiter, antiDos
      ensures Valid() && limiter.window.start <= l.time && antiDos.lastRefill <= l.lookupTime
      ensures Evaluates(compiled, limiter.maxPerSecond, old(State()), l, o, State())
    {
      var hits := HitsOf(compiled.patterns, l.matches);
      if hits == [] {
        return Ignored;
      }
      var granted := limiter.Acquire(l.time);
      if !granted {
        return Throttled;
      }
      var id;
      if l.sourceId.Some? {
        id := l.sourceId.value;
      } else if !l.fromFile {
        return Unidentified;
      } else if l.captured.Some? {
        id := l.captured.value;
      } else {
        return Unidentified;
      }
      var name := FindName(id);
      if name.Some? {
        o := Judge(l, hits, Cached, id, name.value);
      } else {
        o := Look(l, hits, id);
      }
    }
  }

  // ---------------------------------------------------------------- runs

  /** The container cache as evaluating the line leaves it: a name the engine has told is added. */
  function KnownAfter(g: Gate, l: Line, o: Outcome): map<string, string> {
    if o.Judged? && o.source.Engine? && Identity(l).Some? then g.known[Identity(l).value := o.name] else g.known
  }

  /**
    Lines evaluated one after the other. Between them the event thread may change the container cache
    as it likes: `gates[i]` is what line `i` finds.
  */
  ghost predicate IsRun(c: Compiled, max: nat, lines: seq<Line>, outcomes: seq<Outcome>, gates: seq<Gate>)
    requires Aligned(c)
  {
    && |outcomes| == |lines| && |gates| == |lines| + 1
    && forall i :: 0 <= i < |lines| ==> LineAt(c, max, lines, outcomes, gates, i)
  }

  ghost predicate LineAt(c: Compiled, max: nat, lines: seq<Line>, outcomes: seq<Outcome>, gates: seq<Gate>, i: nat)
    requires Aligned(c) && i < |lines| == |outcomes| == |gates| - 1
  {
    var after := gates[i + 1].(known := KnownAfter(gates[i], lines[i], outcomes[i]));
    Evaluates(c, max, gates[i], lines[i], outcomes[i], after)
  }

  lemma RunRest(c: Compiled, max: nat, lines: seq<Line>, outcomes: seq<Outcome>, gates: seq<Gate>)
    requires Aligned(c) && IsRun(c, max, lines, outcomes, gates) && lines != []
    ensures LineAt(c, max, lines, outcomes, gates, 0)
    ensures IsRun(c, max, lines[1..], outcomes[1..], gates[1..])
  {
    forall i: nat | i < |lines| - 1 ensures LineAt(c, max, lines[1..], outcomes[1..], gates[1..], i) {
      assert LineAt(c, max, lines, outcomes, gates, i + 1);
    }
  }

  lemma RunFront(c: Compiled, max: nat, lines: seq<Line>, outcomes: seq<Outcome>, gates: seq<Gate>, n: nat)
    requires Aligned(c) && IsRun(c, max, lines, outcomes, gates) && n <= |lines|
    ensures IsRun(c, max, lines[..n], outcomes[..n], gates[..n + 1])
  {
    var ls, os, gs := lines[..n], outcomes[..n], gates[..n + 1];
    forall i: nat | i < n ensures LineAt(c, max, ls, os, gs, i) {
      assert LineAt(c, max, lines, outcomes, gates, i);
    }
  }

  /** The clock never goes back, neither at the limiter nor at the lookups. */
  ghost predicate InTime(g: Gate, lines: seq<Line>) {
    && (forall i :: 0 <= i < |lines| ==> g.window.start <= lines[i].time && g.tokens.start <= lines[i].lookupTime)
    && (forall i, j :: 0 <= i < j < |lines| ==>
          lines[i].time <= lines[j].time && lines[i].lookupTime <= lines[j].lookupTime)
  }

  /** The line got past the limiter. */
  predicate Passes(o: Outcome) {
    !o.Ignored? && !o.Throttled?
  }

  /** The engine was asked. */
  predicate LookedUp(o: Outcome) {
    o.LookupFailed? || (o.Judged? && o.source.Engine?)
  }

  function Passed(lines: seq<Line>, outcomes: seq<Outcome>, a: int, b: int): nat
    requires |outcomes| == |lines|
  {
    if lines == [] then 0
    else (if Passes(outcomes[0]) && a <= lines[0].time <= b then 1 else 0) + Passed(lines[1..], outcomes[1..], a, b)
  }

  function Lookups(lines: seq<Line>, outcomes: seq<Outcome>, a: int, b: int): nat
    requires |outcomes| == |lines|
  {
    if lines == [] then 0
    else
      var first := if LookedUp(outcomes[0]) && a <= lines[0].lookupTime <= b then 1 else 0;
      first + Lookups(lines[1..], outcomes[1..], a, b)
  }

  /** The calls a run makes of the limiter: one for each line that matches. */
  function LimiterCalls(lines: seq<Line>, outcomes: seq<Outcome>): seq<Call>
    requires |outcomes| == |lines|
  {
    if lines == [] then []
    else
      var later := LimiterCalls(lines[1..], outcomes[1..]);
      if outcomes[0].Ignored? then later else [Call(lines[0].time, true)] + later
  }

  /** Whether the line reached the lookup tokens, and if so whether it asked for one. */
  predicate ReachesTokens(o: Outcome) {
    o.KnownMiss? || o.LookupFailed? || (o.Judged? && !o.source.Cached?)
  }

  function TokenCalls(lines: seq<Line>, outcomes: seq<Outcome>): seq<Call>
    requires |outcomes| == |lines|
  {
    if lines == [] then []
    else
      var later := TokenCalls(lines[1..], outcomes[1..]);
      if ReachesTokens(outcomes[0]) then [Call(lines[0].lookupTime, !outcomes[0].KnownMiss?)] + later else later
  }

  lemma {:induction false} LimiterCallsInOrder(lines: seq<Line>, outcomes: seq<Outcome>, start: int)
    requires |outcomes| == |lines|
    requires forall i :: 0 <= i < |lines| ==> start <= lines[i].time
    requires forall i, j :: 0 <= i < j < |lines| ==> lines[i].time <= lines[j].time
    ensures InOrder(Window(start, 0), LimiterCalls(lines, outcomes))
  {
    if lines != [] {
      LimiterCallsInOrder(lines[1..], outcomes[1..], lines[0].time);
    }
  }

  lemma {:induction false} TokenCallsInOrder(lines: seq<Line>, outcomes: seq<Outcome>, start: int)
    requires |outcomes| == |lines|
    requires forall i :: 0 <= i < |lines| ==> start <= lines[i].lookupTime
    requires forall i, j :: 0 <= i < j < |lines| ==> lines[i].lookupTime <= lines[j].lookupTime
    ensures InOrder(Window(start, 0), TokenCalls(lines, outcomes))
  {
    if lines != [] {
      TokenCallsInOrder(lines[1..], outcomes[1..], lines[0].lookupTime);
    }
  }

  lemma {:induction false} PassedAreGranted(c: Compiled, max: nat, lines: seq<Line>, outcomes: seq<Outcome>,
                                            gates: seq<Gate>, a: int, b: int)
    requires Aligned(c) && IsRun(c, max, lines, outcomes, gates)
    ensures Passed(lines, outcomes, a, b) == Granted(gates[0].window, LimiterCalls(lines, outcomes), max, a, b)
  {
    if lines != [] {
      var rest := LimiterCalls(lines[1..], outcomes[1..]);
      RunRest(c, max, lines, outcomes, gates);
      PassedAreGranted(c, max, lines[1..], outcomes[1..], gates[1..], a, b);
      if !outcomes[0].Ignored? {
        GrantedNext(gates[0].window, Call(lines[0].time, true), rest, max, a, b);
      }
    }
  }

  lemma {:induction false} LookupsAreGranted(c: Compiled, max: nat, lines: seq<Line>, outcomes: seq<Outcome>,
                                             gates: seq<Gate>, a: int, b: int)
    requires Aligned(c) && IsRun(c, max, lines, outcomes, gates)
    ensures Lookups(lines, outcomes, a, b)
         == Granted(gates[0].tokens, TokenCalls(lines, outcomes), NegativeCache.MAX_LOOKUP_TOKENS, a, b)
  {
    if lines != [] {
      var rest := TokenCalls(lines[1..], outcomes[1..]);
      RunRest(c, max, lines, outcomes, gates);
      LookupsAreGranted(c, max, lines[1..], outcomes[1..], gates[1..], a, b);
      if ReachesTokens(outcomes[0]) {
        var call := Call(lines[0].lookupTime, !outcomes[0].KnownMiss?);
        GrantedNext(gates[0].tokens, call, rest, NegativeCache.MAX_LOOKUP_TOKENS, a, b);
      }
    }
  }

  /**
    Whatever lines arrive, an interval sees no more of them evaluated, and no more lookups of the
    engine, than its two limiters allow.
  */
  lemma LoadIsBounded(c: Compiled, max: nat, lines: seq<Line>, outcomes: seq<Outcome>, gates: seq<Gate>, a: int, b: int)
    requires Aligned(c) && IsRun(c, max, lines, outcomes, gates) && InTime(gates[0], lines) && a <= b
    requires gates[0].window.used <= max && gates[0].tokens.used <= NegativeCache.MAX_LOOKUP_TOKENS
    ensures Passed(lines, outcomes, a, b) <= max * (CeilSeconds(b - a) + 1)
    ensures Lookups(lines, outcomes, a, b) <= NegativeCache.MAX_LOOKUP_TOKENS * (CeilSeconds(b - a) + 1)
  {
    PassedAreGranted(c, max, lines, outcomes, gates, a, b);
    LimiterCallsInOrder(lines, outcomes, gates[0].window.start);
    AtMost(gates[0].window, LimiterCalls(lines, outcomes), max, a, b);
    LookupsAreGranted(c, max, lines, outcomes, gates, a, b);
    TokenCallsInOrder(lines, outcomes, gates[0].tokens.start);
    AtMost(gates[0].tokens, TokenCalls(lines, outcomes), NegativeCache.MAX_LOOKUP_TOKENS, a, b);
  }

  // ---------------------------------------------------------------- failed lookups are remembered

  function FailedIds(lines: seq<Line>, outcomes: seq<Outcome>): seq<string>
    requires |outcomes| == |lines|
  {
    if lines == [] then []
    else
      var n := |lines| - 1;
      var earlier := FailedIds(lines[..n], outcomes[..n]);
      if outcomes[n].LookupFailed? && Identity(lines[n]).Some? then earlier + [Identity(lines[n]).value] else earlier
  }

  ghost predicate Remembers(misses: NegativeCache.Cache, failed: seq<string>) {
    && misses.order == NegativeCache.LastOf(failed, NegativeCache.MAX_NEGATIVE_CACHE)
    && misses.members == NegativeCache.Elements(misses.order)
    && Sequences.Distinct(misses.order)
  }

  lemma {:induction false} RunRemembers(c: Compiled, max: nat, lines: seq<Line>, outcomes: seq<Outcome>,
                                        gates: seq<Gate>)
    requires Aligned(c) && IsRun(c, max, lines, outcomes, gates) && gates[0].misses == NegativeCache.EMPTY
    ensures Remembers(gates[|lines|].misses, FailedIds(lines, outcomes))
    decreases |lines|
  {
    if lines != [] {
      var n := |lines| - 1;
      RunFront(c, max, lines, outcomes, gates, n);
      RunRemembers(c, max, lines[..n], outcomes[..n], gates[..n + 1]);
      assert LineAt(c, max, lines, outcomes, gates, n);
      if outcomes[n].LookupFailed? {
        NegativeCache.InsertExact(gates[n].misses, FailedIds(lines[..n], outcomes[..n]), Identity(lines[n]).value);
      }
    }
  }

  /** The engine is not asked about an id that is among the last thousand it was asked about in vain. */
  lemma NoRepeatedLookup(c: Compiled, max: nat, lines: seq<Line>, outcomes: seq<Outcome>, gates: seq<Gate>, i: nat)
    requires Aligned(c) && IsRun(c, max, lines, outcomes, gates) && gates[0].misses == NegativeCache.EMPTY
    requires i < |lines| && LookedUp(outcomes[i])
    ensures Identity(lines[i]).Some?
    ensures Identity(lines[i]).value
      !in NegativeCache.LastOf(FailedIds(lines[..i], outcomes[..i]), NegativeCache.MAX_NEGATIVE_CACHE)
  {
    RunFront(c, max, lines, outcomes, gates, i);
    RunRemembers(c, max, lines[..i], outcomes[..i], gates[..i + 1]);
    assert LineAt(c, max, lines, outcomes, gates, i);
  }

  // ---------------------------------------------------------------- what a line may cause

  /** None of the known containers has this id or one it abbreviates. */
  ghost predicate IsUnknown(known: map<string, string>, id: string) {
    forall long :: long in known ==> !(id <= long)
  }

  lemma {:induction false} UnknownMeans(known: map<string, string>, id: string)
    ensures IsUnknown(known, id) <==> !IsKnown(known, id)
  {
    assert forall long :: long in known ==> (Abbreviates(id, long) <==> id <= long);
  }

  /** There is a lookup token: the second is over, or fewer than ten have been taken in it. */
  predicate HasToken(g: Gate, l: Line) {
    l.lookupTime - g.tokens.start >= SECOND || g.tokens.used < NegativeCache.MAX_LOOKUP_TOKENS
  }

  /**
    A line is ignored exactly if no pattern matches, throttled exactly if the second's budget is spent,
    and without identity exactly if its source gives it no id and it is no file line with a captured one.
  */
  lemma {:induction false} WhichLinesCount(c: Compiled, max: nat, g: Gate, l: Line, o: Outcome, h: Gate)
    requires Aligned(c) && Evaluates(c, max, g, l, o, h)
    ensures o.Ignored? <==> forall k :: 0 <= k < |c.patterns| ==> !l.matches(c.patterns[k])
    ensures o.Throttled? <==>
      !o.Ignored? && (max == 0 || (l.time - g.window.start < SECOND && g.window.used >= max))
    ensures o.Unidentified? <==>
      Passes(o) && l.sourceId.None? && (!l.fromFile || l.captured.None?)
  {
    HitsAscend(c.patterns, l.matches);
    var hits := HitsOf(c.patterns, l.matches);
    if hits != [] {
      assert hits[0] in hits;
    }
  }

  /** The id of a line: the one of its file or socket, else the captured one. */
  function IdOf(l: Line): string
    requires l.sourceId.Some? || l.captured.Some?
  {
    if l.sourceId.Some? then l.sourceId.value else l.captured.value
  }

  /**
    A line with an identity: its id is refused, exactly if it is unknown and remembered as a miss; looked
    up in vain, exactly if it is neither, a token is left and the engine knows no such container; and
    judged otherwise, under the cached name exactly if it is known.
  */
  lemma {:induction false} WhatAnIdLeadsTo(c: Compiled, max: nat, g: Gate, l: Line, o: Outcome, h: Gate)
    requires Aligned(c) && Evaluates(c, max, g, l, o, h) && Passes(o) && !o.Unidentified?
    ensures l.sourceId.Some? || (l.fromFile && l.captured.Some?)
    ensures var id := IdOf(l);
      && (o.KnownMiss? <==> IsUnknown(g.known, id) && id in g.misses.members)
      && (o.LookupFailed? <==>
            IsUnknown(g.known, id) && id !in g.misses.members && HasToken(g, l) && l.engine.None?)
      && (o.Judged? && o.source.Cached? <==> !IsUnknown(g.known, id))
      && (o.Judged? && o.source.Engine? <==>
            IsUnknown(g.known, id) && id !in g.misses.members && HasToken(g, l) && l.engine.Some?)
      && (o.Judged? && o.source.Fallback? <==> IsUnknown(g.known, id) && id !in g.misses.members && !HasToken(g, l))
  {
    UnknownMeans(g.known, IdOf(l));
  }

  /**
    What a judged line goes by: the name of its id or of a known id it abbreviates; the name the engine
    tells, which is remembered; or the id itself, for a worker apart. Its messages are those declared for
    that name.
  */
  lemma {:induction false} JudgedAsDeclared(c: Compiled, m: Manifest, max: nat, g: Gate, l: Line, o: Outcome, h: Gate)
    requires IsCompiled(c, m) && Evaluates(c, max, g, l, o, h) && o.Judged?
    ensures l.sourceId.Some? || (l.fromFile && l.captured.Some?)
    ensures o.messages == DeclaredMessages(m, o.name, l.matches, l.fromFile, l.text)
    ensures forall x :: x in o.messages <==> IsDeclared(m, o.name, l.matches, l.fromFile, l.text, x)
    ensures !o.source.Fallback? ==> o.target == IdOf(l)
    ensures o.source.Cached? ==>
      if IdOf(l) in g.known then o.name == g.known[IdOf(l)]
      else exists long :: long in g.known && IdOf(l) <= long && o.name == g.known[long]
    ensures o.source.Engine? ==> l.engine == Some(o.name) && h.known == g.known[IdOf(l) := o.name]
    ensures !o.source.Engine? ==> h.known == g.known
    ensures o.source.Fallback? ==> o.name == IdOf(l)
    ensures o.source.Fallback? ==>
      o.target == "UNSYNCED_ID_" + if |o.name| <= FALLBACK_LENGTH then o.name else o.name[..FALLBACK_LENGTH]
  {
    LoopDecidesDeclared(m, c, o.name, l.matches);
    MessagesDeclared(m, o.name, l.matches, l.fromFile, l.text);
    if o.source.Fallback? && |o.name| <= FALLBACK_LENGTH {
      assert o.name[..|o.name|] == o.name;
    }
  }
}
