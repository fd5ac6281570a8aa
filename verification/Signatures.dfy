/** Compiling signatures and deciding on a line (src/ingestion.rs, `compile_manifest_rules` and the verdict loops). */
module Signatures {
  import opened Wrappers
  import opened Playbook
  import opened Manifests

  datatype SignatureMeta =
    | Rule(name: string, playbook: string, pattern: string, tryActions: seq<Action>, finalActions: seq<Action>)
    | Whitelist(name: string, pattern: string)

  /** The patterns of the regex set and, index by index, what each of them stands for. */
  datatype Compiled = Compiled(
    patterns: seq<string>,
    metadata: seq<SignatureMeta>,
    mappings: map<string, MappingConfig>)

  /** What a line leads to: nothing, because a whitelist applies, or the rules to respond with. */
  datatype Verdict = Suppressed | Respond(hits: seq<Response>)

  /** A rule that has been hit and what to do about it. */
  datatype Response = Response(
    name: string,
    playbook: string,
    pattern: string,
    tryActions: seq<Action>,
    finalActions: seq<Action>)

  function ToResponse(s: SignatureMeta): Response
    requires s.Rule?
  {
    Response(s.name, s.playbook, s.pattern, s.tryActions, s.finalActions)
  }

  // ---------------------------------------------------------------- compiling

  function WhitelistSignatures(w: WhitelistConfig): seq<SignatureMeta> {
    seq(|w.matchAny|, i requires 0 <= i < |w.matchAny| => Whitelist(w.name, w.matchAny[i]))
  }

  function RuleSignatures(r: RuleConfig, playbooks: map<string, PlaybookConfig>): seq<SignatureMeta> {
    if r.playbook in playbooks then
      var p := playbooks[r.playbook];
      seq(|r.matchAny|, i requires 0 <= i < |r.matchAny| =>
        Rule(r.name, r.playbook, r.matchAny[i], p.tryActions, p.finalActions))
    else []
  }

  function AllWhitelists(ws: seq<WhitelistConfig>): seq<SignatureMeta> {
    if ws == [] then [] else AllWhitelists(ws[..|ws| - 1]) + WhitelistSignatures(ws[|ws| - 1])
  }

  function AllRules(rs: seq<RuleConfig>, playbooks: map<string, PlaybookConfig>): seq<SignatureMeta> {
    if rs == [] then [] else AllRules(rs[..|rs| - 1], playbooks) + RuleSignatures(rs[|rs| - 1], playbooks)
  }

  function PatternsOf(metadata: seq<SignatureMeta>): seq<string> {
    seq(|metadata|, i requires 0 <= i < |metadata| => metadata[i].pattern)
  }

  lemma PatternsMore(metadata: seq<SignatureMeta>, s: SignatureMeta)
    ensures PatternsOf(metadata + [s]) == PatternsOf(metadata) + [s.pattern]
  {
  }

  /** Patterns and metadata stay aligned, whitelists come first, and every rule with a playbook is there. */
  method CompileManifestRules(m: Manifest) returns (c: Compiled)
    ensures c.metadata == AllWhitelists(m.whitelists) + AllRules(m.rules, m.playbooks)
    ensures c.patterns == PatternsOf(c.metadata) && c.mappings == m.mappings
  {
    var patterns, metadata := CompileWhitelists(m.whitelists);
    patterns, metadata := CompileRules(m.rules, m.playbooks, patterns, metadata);
    c := Compiled(patterns, metadata, m.mappings);
  }

  method CompileWhitelists(ws: seq<WhitelistConfig>) returns (patterns: seq<string>, metadata: seq<SignatureMeta>)
    ensures metadata == AllWhitelists(ws) && patterns == PatternsOf(metadata)
  {
    patterns, metadata := [], [];
    for i := 0 to |ws|
      invariant metadata == AllWhitelists(ws[..i]) && patterns == PatternsOf(metadata)
    {
      var w := ws[i];
      assert ws[..i + 1][..i] == ws[..i];
      ghost var before := metadata;
      for j := 0 to |w.matchAny|
        invariant metadata == before + WhitelistSignatures(w)[..j]
        invariant patterns == PatternsOf(metadata)
      {
        PatternsMore(metadata, Whitelist(w.name, w.matchAny[j]));
        patterns := patterns + [w.matchAny[j]];
        metadata := metadata + [Whitelist(w.name, w.matchAny[j])];
      }
    }
    assert ws[..|ws|] == ws;
  }

  method CompileRules(rs: seq<RuleConfig>, playbooks: map<string, PlaybookConfig>, before: seq<string>,
                      given: seq<SignatureMeta>)
    returns (patterns: seq<string>, metadata: seq<SignatureMeta>)
    requires before == PatternsOf(given)
    ensures metadata == given + AllRules(rs, playbooks) && patterns == PatternsOf(metadata)
  {
    patterns, metadata := before, given;
    for i := 0 to |rs|
      invariant metadata == given + AllRules(rs[..i], playbooks) && patterns == PatternsOf(metadata)
    {
      var r := rs[i];
      assert rs[..i + 1][..i] == rs[..i];
      ghost var earlier := metadata;
      if r.playbook in playbooks {
        var p := playbooks[r.playbook];
        for j := 0 to |r.matchAny|
          invariant metadata == earlier + RuleSignatures(r, playbooks)[..j]
          invariant patterns == PatternsOf(metadata)
        {
          PatternsMore(metadata, Rule(r.name, r.playbook, r.matchAny[j], p.tryActions, p.finalActions));
          patterns := patterns + [r.matchAny[j]];
          metadata := metadata + [Rule(r.name, r.playbook, r.matchAny[j], p.tryActions, p.finalActions)];
        }
      }
      assert metadata == earlier + RuleSignatures(r, playbooks);
    }
    assert rs[..|rs|] == rs;
  }

  lemma {:induction false} OnlyWhitelists(ws: seq<WhitelistConfig>)
    ensures forall i :: 0 <= i < |AllWhitelists(ws)| ==> AllWhitelists(ws)[i].Whitelist?
  {
    if ws != [] { OnlyWhitelists(ws[..|ws| - 1]); }
  }

  lemma {:induction false} OnlyRules(rs: seq<RuleConfig>, playbooks: map<string, PlaybookConfig>)
    ensures forall i :: 0 <= i < |AllRules(rs, playbooks)| ==> AllRules(rs, playbooks)[i].Rule?
  {
    if rs != [] { OnlyRules(rs[..|rs| - 1], playbooks); }
  }

  // ---------------------------------------------------------------- deciding

  function ContainsSignature(m: MappingConfig, name: string, isWhitelist: bool): bool {
    if isWhitelist then name in m.activeWhitelists else name in m.activeRules
  }

  /** A signature counts for a container if the container's own mapping or the global one lists it. */
  predicate Active(mappings: map<string, MappingConfig>, container: string, name: string, isWhitelist: bool) {
    || (container in mappings && ContainsSignature(mappings[container], name, isWhitelist))
    || ("*" in mappings && ContainsSignature(mappings["*"], name, isWhitelist))
  }

  predicate IsMapped(c: Compiled, container: string, s: SignatureMeta) {
    Active(c.mappings, container, s.name, s.Whitelist?)
  }

  /** The mapped rules among the hits, in order. */
  function MappedRules(c: Compiled, container: string, hits: seq<nat>): seq<Response>
    requires forall i :: 0 <= i < |hits| ==> hits[i] < |c.metadata|
  {
    if hits == [] then []
    else
      var s := c.metadata[hits[|hits| - 1]];
      var earlier := MappedRules(c, container, hits[..|hits| - 1]);
      earlier + if s.Rule? && IsMapped(c, container, s) then [ToResponse(s)] else []
  }

  lemma MappedRulesMore(c: Compiled, container: string, hits: seq<nat>, n: nat)
    requires n < |c.metadata| && forall i :: 0 <= i < |hits| ==> hits[i] < |c.metadata|
    ensures var s := c.metadata[n];
      MappedRules(c, container, hits + [n]) ==
      if s.Rule? && IsMapped(c, container, s) then MappedRules(c, container, hits) + [ToResponse(s)]
      else MappedRules(c, container, hits)
  {
    assert (hits + [n])[..|hits|] == hits;
  }

  lemma MappedRulesAt(c: Compiled, container: string, hits: seq<nat>, k: nat)
    requires k < |hits| && forall i :: 0 <= i < |hits| ==> hits[i] < |c.metadata|
    ensures var s := c.metadata[hits[k]];
      MappedRules(c, container, hits[..k + 1]) ==
      if s.Rule? && IsMapped(c, container, s) then MappedRules(c, container, hits[..k]) + [ToResponse(s)]
      else MappedRules(c, container, hits[..k])
  {
    assert hits[..k + 1] == hits[..k] + [hits[k]];
    MappedRulesMore(c, container, hits[..k], hits[k]);
  }

  /** The declarative verdict. */
  ghost function Decide(c: Compiled, container: string, hits: seq<nat>): Verdict
    requires forall i :: 0 <= i < |hits| ==> hits[i] < |c.metadata|
  {
    if exists i :: 0 <= i < |hits| && c.metadata[hits[i]].Whitelist? && IsMapped(c, container, c.metadata[hits[i]])
    then Suppressed
    else Respond(MappedRules(c, container, hits))
  }

  method CheckMapped(c: Compiled, container: string, s: SignatureMeta) returns (isMapped: bool)
    ensures isMapped == IsMapped(c, container, s)
    ensures isMapped <==>
      || (container in c.mappings && s.name in
            if s.Whitelist? then c.mappings[container].activeWhitelists else c.mappings[container].activeRules)
      || ("*" in c.mappings && s.name in
            if s.Whitelist? then c.mappings["*"].activeWhitelists else c.mappings["*"].activeRules)
  {
    isMapped := false;
    if container in c.mappings {
      if ContainsSignature(c.mappings[container], s.name, s.Whitelist?) {
        isMapped := true;
      }
    }
    if !isMapped {
      if "*" in c.mappings {
        if ContainsSignature(c.mappings["*"], s.name, s.Whitelist?) {
          isMapped := true;
        }
      }
    }
  }

  /** The loop over the hits, which stops at the first mapped whitelist. */
  method Evaluate(c: Compiled, container: string, hits: seq<nat>) returns (v: Verdict)
    requires forall i :: 0 <= i < |hits| ==> hits[i] < |c.metadata|
    ensures v == Decide(c, container, hits)
  {
    var ruleHits: seq<Response> := [];
    for k := 0 to |hits|
      invariant ruleHits == MappedRules(c, container, hits[..k])
      invariant forall i :: 0 <= i < k ==>
        !(c.metadata[hits[i]].Whitelist? && IsMapped(c, container, c.metadata[hits[i]]))
    {
      MappedRulesAt(c, container, hits, k);
      var meta := c.metadata[hits[k]];
      var isMapped := CheckMapped(c, container, meta);
      if isMapped {
        match meta {
          case Whitelist(_, _) =>
            return Suppressed;
          case Rule(name, playbook, pattern, tryActions, finalActions) =>
            ruleHits := ruleHits + [Response(name, playbook, pattern, tryActions, finalActions)];
        }
      }
    }
    assert hits[..|hits|] == hits;
    v := Respond(ruleHits);
  }

  /** The offline scan collects names and patterns only; `historical` renames the scraped id. */
  datatype OfflineVerdict = Bypassed | Matches(hits: seq<(string, string)>)

  function NamesAndPatterns(hits: seq<Response>): seq<(string, string)> {
    if hits == [] then []
    else NamesAndPatterns(hits[..|hits| - 1]) + [(hits[|hits| - 1].name, hits[|hits| - 1].pattern)]
  }

  function Report(v: Verdict): OfflineVerdict {
    match v
    case Suppressed => Bypassed
    case Respond(hits) => Matches(NamesAndPatterns(hits))
  }

  lemma ReportMore(hits: seq<Response>, r: Response)
    ensures NamesAndPatterns(hits + [r]) == NamesAndPatterns(hits) + [(r.name, r.pattern)]
  {
    assert (hits + [r])[..|hits|] == hits;
  }

  lemma {:induction false} NamesAndPatternsAt(hits: seq<Response>)
    ensures NamesAndPatterns(hits) == seq(|hits|, i requires 0 <= i < |hits| => (hits[i].name, hits[i].pattern))
  {
    if hits != [] {
      NamesAndPatternsAt(hits[..|hits| - 1]);
    }
  }

  /** The offline scan decides as the live one does for the same name. */
  method EvaluateOffline(c: Compiled, historical: map<string, string>, scraped: Option<string>, hits: seq<nat>)
    returns (v: OfflineVerdict)
    requires forall i :: 0 <= i < |hits| ==> hits[i] < |c.metadata|
    ensures var id := if scraped.Some? then scraped.value else "UNKNOWN_ID";
      var live := Decide(c, if id in historical then historical[id] else id, hits);
      if live.Suppressed? then v == Bypassed
      else
        && v.Matches? && |v.hits| == |live.hits|
        && forall i :: 0 <= i < |v.hits| ==> v.hits[i] == (live.hits[i].name, live.hits[i].pattern)
  {
    var displayId := if scraped.Some? then scraped.value else "UNKNOWN_ID";
    var name := if displayId in historical then historical[displayId] else displayId;
    ghost var live := Decide(c, name, hits);
    if live.Respond? {
      NamesAndPatternsAt(live.hits);
    }
    v := ScanHits(c, name, hits);
  }

  function Reported(c: Compiled, container: string, hits: seq<nat>): seq<(string, string)>
    requires forall i :: 0 <= i < |hits| ==> hits[i] < |c.metadata|
  {
    NamesAndPatterns(MappedRules(c, container, hits))
  }

  lemma ReportedAt(c: Compiled, container: string, hits: seq<nat>, k: nat)
    requires k < |hits| && forall i :: 0 <= i < |hits| ==> hits[i] < |c.metadata|
    ensures var s := c.metadata[hits[k]];
      Reported(c, container, hits[..k + 1]) ==
      if s.Rule? && IsMapped(c, container, s) then Reported(c, container, hits[..k]) + [(s.name, s.pattern)]
      else Reported(c, container, hits[..k])
  {
    var s := c.metadata[hits[k]];
    MappedRulesAt(c, container, hits, k);
    if s.Rule? {
      ReportMore(MappedRules(c, container, hits[..k]), ToResponse(s));
    }
  }

  method ScanHits(c: Compiled, container: string, hits: seq<nat>) returns (v: OfflineVerdict)
    requires forall i :: 0 <= i < |hits| ==> hits[i] < |c.metadata|
    ensures v == Report(Decide(c, container, hits))
  {
    var ruleHits: seq<(string, string)> := [];
    for k := 0 to |hits|
      invariant ruleHits == Reported(c, container, hits[..k])
      invariant forall i :: 0 <= i < k ==>
        !(c.metadata[hits[i]].Whitelist? && IsMapped(c, container, c.metadata[hits[i]]))
    {
      ReportedAt(c, container, hits, k);
      var meta := c.metadata[hits[k]];
      var isMapped := CheckMapped(c, container, meta);
      if isMapped {
        match meta {
          case Whitelist(_, _) =>
            return Bypassed;
          case Rule(name, _, pattern, _, _) =>
            ruleHits := ruleHits + [(name, pattern)];
        }
      }
    }
    assert hits[..|hits|] == hits;
    v := Matches(ruleHits);
  }

  // ---------------------------------------------------------------- hits of a regex set

  /** The indices of the matching patterns, ascending. */
  function HitsOf(patterns: seq<string>, matches: string -> bool): (hits: seq<nat>)
    ensures forall i :: 0 <= i < |hits| ==> hits[i] < |patterns|
  {
    if patterns == [] then []
    else
      var n := |patterns| - 1;
      HitsOf(patterns[..n], matches) + if matches(patterns[n]) then [n] else []
  }

  lemma {:induction false} HitsAscend(patterns: seq<string>, matches: string -> bool)
    ensures var hits := HitsOf(patterns, matches);
      && (forall i, j :: 0 <= i < j < |hits| ==> hits[i] < hits[j])
      && (forall k :: 0 <= k < |patterns| ==> (k in hits <==> matches(patterns[k])))
  {
    if patterns != [] {
      var n := |patterns| - 1;
      HitsAscend(patterns[..n], matches);
      assert forall k :: 0 <= k < n ==> patterns[..n][k] == patterns[k];
    }
  }

  /** Whitelists compile first, so no rule has been collected when a whitelist ends the loop. */
  lemma NoRuleBeforeWhitelist(m: Manifest, c: Compiled, hits: seq<nat>, i: nat, j: nat)
    requires c.metadata == AllWhitelists(m.whitelists) + AllRules(m.rules, m.playbooks)
    requires forall k :: 0 <= k < |hits| ==> hits[k] < |c.metadata|
    requires forall k, l :: 0 <= k < l < |hits| ==> hits[k] < hits[l]
    requires j < i < |hits| && c.metadata[hits[i]].Whitelist?
    ensures c.metadata[hits[j]].Whitelist?
  {
    OnlyWhitelists(m.whitelists);
    OnlyRules(m.rules, m.playbooks);
  }

  /** Compiling drops no pattern of a rule whose playbook is declared, as in an accepted merge all are. */
  lemma {:induction false} NoPatternDropped(rs: seq<RuleConfig>, playbooks: map<string, PlaybookConfig>,
                                            r: RuleConfig, pattern: string)
    requires r in rs && r.playbook in playbooks && pattern in r.matchAny
    ensures Rule(r.name, r.playbook, pattern, playbooks[r.playbook].tryActions, playbooks[r.playbook].finalActions)
      in AllRules(rs, playbooks)
  {
    var n := |rs| - 1;
    if r == rs[n] {
      var i :| 0 <= i < |r.matchAny| && r.matchAny[i] == pattern;
      assert RuleSignatures(r, playbooks)[i].pattern == pattern;
      assert RuleSignatures(r, playbooks)[i] in RuleSignatures(r, playbooks);
    } else {
      assert rs == rs[..n] + [rs[n]];
      NoPatternDropped(rs[..n], playbooks, r, pattern);
    }
  }
}
