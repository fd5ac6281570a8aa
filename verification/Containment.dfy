/**
  From manifests to executed actions: merging, compiling, deciding and executing taken together
  answer to what the manifests declare, with no index, no regex set and no loop in between.
*/
module Containment {
  import opened Wrappers
  import opened Playbook
  import opened Manifests
  import opened Signatures
  import opened Pipeline

  // ---------------------------------------------------------------- what the manifests declare

  /** A whitelist active for the container has a pattern that matches the line. */
  ghost predicate Exempt(m: Manifest, container: string, matches: string -> bool) {
    exists w, p :: w in m.whitelists && p in w.matchAny && matches(p) && Active(m.mappings, container, w.name, true)
  }

  /** One response for each matching pattern of a rule. */
  function PatternResponses(r: RuleConfig, p: PlaybookConfig, patterns: seq<string>,
                            matches: string -> bool): seq<Response> {
    if patterns == [] then []
    else
      var pattern := patterns[|patterns| - 1];
      PatternResponses(r, p, patterns[..|patterns| - 1], matches)
        + if matches(pattern) then [Response(r.name, r.playbook, pattern, p.tryActions, p.finalActions)] else []
  }

  function RuleResponses(m: Manifest, r: RuleConfig, container: string, matches: string -> bool): seq<Response> {
    if r.playbook in m.playbooks && Active(m.mappings, container, r.name, false)
    then PatternResponses(r, m.playbooks[r.playbook], r.matchAny, matches)
    else []
  }

  /** The responses of the rules active for the container, in the order of the rules. */
  function Responses(m: Manifest, rules: seq<RuleConfig>, container: string, matches: string -> bool): seq<Response> {
    if rules == [] then []
    else
      var n := |rules| - 1;
      Responses(m, rules[..n], container, matches) + RuleResponses(m, rules[n], container, matches)
  }

  ghost function DeclaredVerdict(m: Manifest, container: string, matches: string -> bool): Verdict {
    if Exempt(m, container, matches) then Suppressed else Respond(Responses(m, m.rules, container, matches))
  }

  // ---------------------------------------------------------------- the loop decides what is declared

  predicate IsCompiled(c: Compiled, m: Manifest) {
    && c.metadata == AllWhitelists(m.whitelists) + AllRules(m.rules, m.playbooks)
    && c.patterns == PatternsOf(c.metadata) && c.mappings == m.mappings
  }

  /** The rules among the signatures that match and are mapped. */
  function Selected(metadata: seq<SignatureMeta>, mappings: map<string, MappingConfig>, container: string,
                    matches: string -> bool): seq<Response>
  {
    if metadata == [] then []
    else
      var s := metadata[|metadata| - 1];
      Selected(metadata[..|metadata| - 1], mappings, container, matches)
        + if s.Rule? && matches(s.pattern) && Active(mappings, container, s.name, false) then [ToResponse(s)] else []
  }

  lemma {:induction false} HitsSelect(c: Compiled, container: string, matches: string -> bool, n: nat)
    requires n <= |c.metadata| && c.patterns == PatternsOf(c.metadata)
    ensures MappedRules(c, container, HitsOf(c.patterns[..n], matches))
         == Selected(c.metadata[..n], c.mappings, container, matches)
  {
    if n > 0 {
      HitsSelect(c, container, matches, n - 1);
      assert c.metadata[..n][..n - 1] == c.metadata[..n - 1] && c.patterns[..n][..n - 1] == c.patterns[..n - 1];
      assert HitsOf(c.patterns[..n - 1], matches) + [] == HitsOf(c.patterns[..n - 1], matches);
      if matches(c.metadata[n - 1].pattern) {
        MappedRulesMore(c, container, HitsOf(c.patterns[..n - 1], matches), n - 1);
      }
    }
  }

  lemma {:induction false} SelectedAppend(a: seq<SignatureMeta>, b: seq<SignatureMeta>,
                                          mappings: map<string, MappingConfig>,
                                          container: string, matches: string -> bool)
    ensures Selected(a + b, mappings, container, matches)
         == Selected(a, mappings, container, matches) + Selected(b, mappings, container, matches)
  {
    if b == [] {
      assert a + b == a;
    } else {
      var n := |b| - 1;
      assert (a + b)[..|a + b| - 1] == a + b[..n];
      SelectedAppend(a, b[..n], mappings, container, matches);
    }
  }

  lemma {:induction false} NothingSelected(metadata: seq<SignatureMeta>, mappings: map<string, MappingConfig>,
                                           container: string, matches: string -> bool)
    requires forall i :: 0 <= i < |metadata| ==> metadata[i].Whitelist?
    ensures Selected(metadata, mappings, container, matches) == []
  {
    if metadata != [] {
      NothingSelected(metadata[..|metadata| - 1], mappings, container, matches);
    }
  }

  lemma {:induction false} RuleSelected(m: Manifest, r: RuleConfig, container: string, matches: string -> bool, n: nat)
    requires n <= |r.matchAny| && r.playbook in m.playbooks
    ensures Selected(RuleSignatures(r, m.playbooks)[..n], m.mappings, container, matches)
         == if Active(m.mappings, container, r.name, false)
            then PatternResponses(r, m.playbooks[r.playbook], r.matchAny[..n], matches) else []
  {
    var s := RuleSignatures(r, m.playbooks);
    if n > 0 {
      RuleSelected(m, r, container, matches, n - 1);
      assert s[..n][..n - 1] == s[..n - 1] && r.matchAny[..n][..n - 1] == r.matchAny[..n - 1];
    }
  }

  lemma {:induction false} RulesSelected(m: Manifest, rules: seq<RuleConfig>, container: string,
                                         matches: string -> bool)
    ensures Selected(AllRules(rules, m.playbooks), m.mappings, container, matches)
         == Responses(m, rules, container, matches)
  {
    if rules != [] {
      var n := |rules| - 1;
      var r := rules[n];
      var s := RuleSignatures(r, m.playbooks);
      RulesSelected(m, rules[..n], container, matches);
      SelectedAppend(AllRules(rules[..n], m.playbooks), s, m.mappings, container, matches);
      if r.playbook in m.playbooks {
        RuleSelected(m, r, container, matches, |r.matchAny|);
        assert s[..|r.matchAny|] == s && r.matchAny[..|r.matchAny|] == r.matchAny;
      }
    }
  }

  lemma {:induction false} WhitelistsListed(ws: seq<WhitelistConfig>)
    ensures forall s :: s in AllWhitelists(ws) <==>
      exists w, p :: w in ws && p in w.matchAny && s == Whitelist(w.name, p)
  {
    if ws != [] {
      var front, last := ws[..|ws| - 1], ws[|ws| - 1];
      WhitelistsListed(front);
      assert ws == front + [last];
      forall s
        ensures s in AllWhitelists(ws) <==> exists w, p :: w in ws && p in w.matchAny && s == Whitelist(w.name, p)
      {
        ListedLast(last, s);
      }
    }
  }

  lemma ListedLast(w: WhitelistConfig, s: SignatureMeta)
    ensures s in WhitelistSignatures(w) <==> exists p :: p in w.matchAny && s == Whitelist(w.name, p)
  {
    if p :| p in w.matchAny && s == Whitelist(w.name, p) {
      var i :| 0 <= i < |w.matchAny| && w.matchAny[i] == p;
      assert WhitelistSignatures(w)[i] == s;
    }
  }

  lemma ExemptMeansHit(m: Manifest, c: Compiled, container: string, matches: string -> bool)
    requires IsCompiled(c, m)
    ensures Exempt(m, container, matches) <==> Decide(c, container, HitsOf(c.patterns, matches)).Suppressed?
  {
    var hits := HitsOf(c.patterns, matches);
    HitsAscend(c.patterns, matches);
    WhitelistsListed(m.whitelists);
    OnlyRules(m.rules, m.playbooks);
    if w, p :| w in m.whitelists && p in w.matchAny && matches(p) && Active(m.mappings, container, w.name, true) {
      assert Whitelist(w.name, p) in AllWhitelists(m.whitelists);
      var k :| 0 <= k < |AllWhitelists(m.whitelists)| && AllWhitelists(m.whitelists)[k] == Whitelist(w.name, p);
      assert c.metadata[k] == Whitelist(w.name, p) && k in hits;
    }
    if i :| 0 <= i < |hits| && c.metadata[hits[i]].Whitelist? && IsMapped(c, container, c.metadata[hits[i]]) {
      assert hits[i] in hits;
      assert c.metadata[hits[i]] in AllWhitelists(m.whitelists);
    }
  }

  /** The verdict loop over the compiled signatures gives the declared verdict. */
  lemma LoopDecidesDeclared(m: Manifest, c: Compiled, container: string, matches: string -> bool)
    requires IsCompiled(c, m)
    ensures Decide(c, container, HitsOf(c.patterns, matches)) == DeclaredVerdict(m, container, matches)
  {
    var ws, rs := AllWhitelists(m.whitelists), AllRules(m.rules, m.playbooks);
    ExemptMeansHit(m, c, container, matches);
    HitsSelect(c, container, matches, |c.metadata|);
    assert c.metadata[..|c.metadata|] == c.metadata && c.patterns[..|c.metadata|] == c.patterns;
    SelectedAppend(ws, rs, m.mappings, container, matches);
    OnlyWhitelists(m.whitelists);
    NothingSelected(ws, m.mappings, container, matches);
    RulesSelected(m, m.rules, container, matches);
  }

  /**
    The verdict by the lists of the mappings. A matching whitelist that the container's own or the global
    mapping lists suppresses; otherwise exactly the matching rules that one of the two lists respond, with
    the actions of their playbooks.
  */
  lemma {:induction false} VerdictByLists(m: Manifest, c: Compiled, container: string, matches: string -> bool)
    requires IsCompiled(c, m)
    ensures var v := Decide(c, container, HitsOf(c.patterns, matches));
      && (v.Suppressed? <==> exists w, p, t ::
            && w in m.whitelists && p in w.matchAny && matches(p)
            && (t == container || t == "*") && t in m.mappings && w.name in m.mappings[t].activeWhitelists)
      && (v.Respond? ==> forall x :: x in v.hits <==> exists r, t ::
            && r in m.rules && r.playbook in m.playbooks && x.pattern in r.matchAny && matches(x.pattern)
            && (t == container || t == "*") && t in m.mappings && r.name in m.mappings[t].activeRules
            && x == Response(r.name, r.playbook, x.pattern,
                             m.playbooks[r.playbook].tryActions, m.playbooks[r.playbook].finalActions))
  {
    LoopDecidesDeclared(m, c, container, matches);
    ResponsesComplete(m, m.rules, container, matches);
  }

  // ---------------------------------------------------------------- dispatching

  /** A rule that responds to a line of a log file validates the container first. */
  function Guarded(tryActions: seq<Action>, fromFile: bool): seq<Action> {
    if fromFile && (tryActions == [] || tryActions[0] != ValidateState) then [ValidateState] + tryActions
    else tryActions
  }

  function ToMessage(r: Response, fromFile: bool, line: string): Message {
    Message(Guarded(r.tryActions, fromFile), r.finalActions, r.name,
            "[Matched Pattern: " + r.pattern + "] Raw: " + line)
  }

  /** One message for each response of a verdict, in order. */
  function MessagesOf(v: Verdict, fromFile: bool, line: string): seq<Message> {
    match v
    case Suppressed => []
    case Respond(hits) => seq(|hits|, i requires 0 <= i < |hits| => ToMessage(hits[i], fromFile, line))
  }

  /** What the manifests say is to be dispatched for a line. */
  ghost function DeclaredMessages(m: Manifest, container: string, matches: string -> bool, fromFile: bool,
                                  line: string): seq<Message> {
    MessagesOf(DeclaredVerdict(m, container, matches), fromFile, line)
  }

  method Dispatch(v: Verdict, fromFile: bool, line: string) returns (messages: seq<Message>)
    ensures messages == MessagesOf(v, fromFile, line)
    ensures v.Suppressed? ==> messages == []
    ensures v.Respond? ==> |messages| == |v.hits| && forall i :: 0 <= i < |messages| ==>
      && messages[i].rule == v.hits[i].name && messages[i].finalActions == v.hits[i].finalActions
      && messages[i].trigger == "[Matched Pattern: " + v.hits[i].pattern + "] Raw: " + line
      && messages[i].tryActions ==
           if fromFile && (v.hits[i].tryActions == [] || v.hits[i].tryActions[0] != ValidateState)
           then [ValidateState] + v.hits[i].tryActions else v.hits[i].tryActions
  {
    messages := [];
    if v.Suppressed? {
      return;
    }
    for i := 0 to |v.hits|
      invariant |messages| == i && forall j :: 0 <= j < i ==> messages[j] == ToMessage(v.hits[j], fromFile, line)
    {
      var hit := v.hits[i];
      var activeTry := hit.tryActions;
      if fromFile && (activeTry == [] || activeTry[0] != ValidateState) {
        activeTry := [ValidateState] + activeTry;
      }
      var trigger := "[Matched Pattern: " + hit.pattern + "] Raw: " + line;
      messages := messages + [Message(activeTry, hit.finalActions, hit.name, trigger)];
    }
  }

  /**
    The whole way: manifest files in, messages for the workers out. `matches` is the regex engine's
    answer for the line, pattern by pattern.
  */
  method Process(files: seq<Option<Manifest>>, validTimeout: string -> bool, container: string, matches: string -> bool,
                 fromFile: bool, line: string)
    returns (r: Result<seq<Message>, MergeError>)
    ensures r.Success? <==> Readable(files) && Acceptable(Contents(files), validTimeout)
    ensures r.Success? ==> r.value == DeclaredMessages(Merged(Contents(files)), container, matches, fromFile, line)
    ensures r.Success? ==> forall x :: x in r.value <==>
      IsDeclared(Merged(Contents(files)), container, matches, fromFile, line, x)
  {
    var loaded := LoadAndMerge(files, validTimeout);
    if loaded.Failure? {
      return Failure(loaded.error);
    }
    var m := loaded.value;
    var c := CompileManifestRules(m);
    LoopDecidesDeclared(m, c, container, matches);
    MessagesDeclared(m, container, matches, fromFile, line);
    var v := Evaluate(c, container, HitsOf(c.patterns, matches));
    var messages := Dispatch(v, fromFile, line);
    r := Success(messages);
  }

  // ---------------------------------------------------------------- what is dispatched and executed

  lemma {:induction false} PatternResponsesFrom(r: RuleConfig, p: PlaybookConfig, patterns: seq<string>,
                                                matches: string -> bool)
    ensures forall x :: x in PatternResponses(r, p, patterns, matches) <==>
      && x.pattern in patterns && matches(x.pattern)
      && x == Response(r.name, r.playbook, x.pattern, p.tryActions, p.finalActions)
  {
    if patterns != [] {
      var n := |patterns| - 1;
      PatternResponsesFrom(r, p, patterns[..n], matches);
      assert patterns == patterns[..n] + [patterns[n]];
    }
  }

  /** A response stands for an active rule with a matching pattern, with the actions of its playbook. */
  ghost predicate IsResponse(m: Manifest, rules: seq<RuleConfig>, container: string, matches: string -> bool,
                             x: Response) {
    exists r :: r in rules && r.playbook in m.playbooks && Active(m.mappings, container, r.name, false)
      && x.pattern in r.matchAny && matches(x.pattern)
      && x == Response(r.name, r.playbook, x.pattern,
                       m.playbooks[r.playbook].tryActions, m.playbooks[r.playbook].finalActions)
  }

  /** No active rule with a matching pattern is dropped, and nothing else responds. */
  lemma {:induction false} ResponsesComplete(m: Manifest, rules: seq<RuleConfig>, container: string,
                                             matches: string -> bool)
    ensures forall x :: x in Responses(m, rules, container, matches) <==> IsResponse(m, rules, container, matches, x)
  {
    if rules != [] {
      var n := |rules| - 1;
      var r := rules[n];
      ResponsesComplete(m, rules[..n], container, matches);
      if r.playbook in m.playbooks {
        PatternResponsesFrom(r, m.playbooks[r.playbook], r.matchAny, matches);
      }
      assert rules == rules[..n] + [r];
      forall x ensures x in Responses(m, rules, container, matches) <==> IsResponse(m, rules, container, matches, x) {
        assert IsResponse(m, rules, container, matches, x) <==>
          IsResponse(m, rules[..n], container, matches, x) || IsResponse(m, [r], container, matches, x);
      }
    }
  }

  /** The message carries out the playbook of a rule, behind a validation if the line is from a file. */
  predicate CarriesOut(x: Message, p: PlaybookConfig, rule: string, pattern: string, fromFile: bool, line: string) {
    && x.rule == rule && x.trigger == "[Matched Pattern: " + pattern + "] Raw: " + line
    && x.finalActions == p.finalActions
    && x.tryActions ==
         if fromFile && (p.tryActions == [] || p.tryActions[0] != ValidateState) then [ValidateState] + p.tryActions
         else p.tryActions
  }

  /**
    No whitelist of the container's own or the global list matches, and the message carries out the
    playbook of a matching rule of one of the two lists.
  */
  ghost predicate IsDeclared(m: Manifest, container: string, matches: string -> bool, fromFile: bool, line: string,
                             x: Message) {
    && (forall w, p, t :: w in m.whitelists && p in w.matchAny && matches(p) && (t == container || t == "*") ==>
          !(t in m.mappings && w.name in m.mappings[t].activeWhitelists))
    && exists r, p, t ::
      && r in m.rules && r.playbook in m.playbooks && p in r.matchAny && matches(p)
      && (t == container || t == "*") && t in m.mappings && r.name in m.mappings[t].activeRules
      && CarriesOut(x, m.playbooks[r.playbook], r.name, p, fromFile, line)
  }

  lemma {:induction false} ResponseDeclared(m: Manifest, container: string, matches: string -> bool, fromFile: bool,
                                            line: string, y: Response)
    requires !Exempt(m, container, matches) && IsResponse(m, m.rules, container, matches, y)
    ensures IsDeclared(m, container, matches, fromFile, line, ToMessage(y, fromFile, line))
  {
    var r :| r in m.rules && r.playbook in m.playbooks && Active(m.mappings, container, r.name, false)
      && y.pattern in r.matchAny && matches(y.pattern)
      && y == Response(r.name, r.playbook, y.pattern,
                       m.playbooks[r.playbook].tryActions, m.playbooks[r.playbook].finalActions);
    assert CarriesOut(ToMessage(y, fromFile, line), m.playbooks[r.playbook], r.name, y.pattern, fromFile, line);
  }

  lemma {:induction false} DeclaredResponse(m: Manifest, container: string, matches: string -> bool, fromFile: bool,
                                            line: string, x: Message) returns (y: Response)
    requires IsDeclared(m, container, matches, fromFile, line, x)
    ensures IsResponse(m, m.rules, container, matches, y) && x == ToMessage(y, fromFile, line)
  {
    var r, p, t :|
      && r in m.rules && r.playbook in m.playbooks && p in r.matchAny && matches(p)
      && (t == container || t == "*") && t in m.mappings && r.name in m.mappings[t].activeRules
      && CarriesOut(x, m.playbooks[r.playbook], r.name, p, fromFile, line);
    y := Response(r.name, r.playbook, p, m.playbooks[r.playbook].tryActions, m.playbooks[r.playbook].finalActions);
  }

  /** The messages sent for a line are exactly those. */
  lemma {:induction false} MessagesDeclared(m: Manifest, container: string, matches: string -> bool, fromFile: bool,
                                            line: string)
    ensures forall x :: x in DeclaredMessages(m, container, matches, fromFile, line) <==>
      IsDeclared(m, container, matches, fromFile, line, x)
  {
    var sent := DeclaredMessages(m, container, matches, fromFile, line);
    var responses := Responses(m, m.rules, container, matches);
    ResponsesComplete(m, m.rules, container, matches);
    if !Exempt(m, container, matches) {
      forall x ensures x in sent <==> IsDeclared(m, container, matches, fromFile, line, x) {
        if x in sent {
          var i :| 0 <= i < |sent| && sent[i] == x;
          assert responses[i] in responses;
          ResponseDeclared(m, container, matches, fromFile, line, responses[i]);
        }
        if IsDeclared(m, container, matches, fromFile, line, x) {
          var y := DeclaredResponse(m, container, matches, fromFile, line, x);
          var i :| 0 <= i < |responses| && responses[i] == y;
          assert sent[i] == x;
        }
      }
    }
  }

  /**
    Every message of a file line makes its pipeline validate the container first; if that fails, no
    other try action runs.
  */
  lemma FileTracesValidateFirst(m: Manifest, container: string, matches: string -> bool, line: string, i: nat, t: Trace)
    requires i < |DeclaredMessages(m, container, matches, true, line)|
    requires var msg := DeclaredMessages(m, container, matches, true, line)[i];
      IsTrace(msg.tryActions, msg.finalActions, t)
    ensures t.tried != [] && t.tried[0].action == ValidateState
    ensures !t.tried[0].ok ==> |t.tried| == 1
  {
    var msg := DeclaredMessages(m, container, matches, true, line)[i];
    assert msg.tryActions[0] == ValidateState;
    assert t.tried != [];
    assert ActionsOf(t.tried)[0] == t.tried[0].action;
  }

  // ---------------------------------------------------------------- the order of the manifest files

  lemma {:induction false} ResponsesTotal(m: Manifest, rules: seq<RuleConfig>, container: string,
                                          matches: string -> bool)
    ensures multiset(Responses(m, rules, container, matches))
         == Total(rules, (r: RuleConfig) => multiset(RuleResponses(m, r, container, matches)))
  {
    if rules != [] {
      ResponsesTotal(m, rules[..|rules| - 1], container, matches);
    }
  }

  lemma ResponsesSameMaps(m: Manifest, n: Manifest, rules: seq<RuleConfig>, container: string, matches: string -> bool)
    requires m.playbooks == n.playbooks && m.mappings == n.mappings
    ensures Responses(m, rules, container, matches) == Responses(n, rules, container, matches)
  {
    if rules != [] {
      ResponsesSameMaps(m, n, rules[..|rules| - 1], container, matches);
    }
  }

  /** In whatever order the manifest files are listed, the same lines are exempt and the same rules respond. */
  lemma FileOrderDoesNotMatter(a: seq<Manifest>, b: seq<Manifest>, container: string, matches: string -> bool)
    requires multiset(a) == multiset(b) && CollisionFree(a)
    ensures Exempt(Merged(a), container, matches) <==> Exempt(Merged(b), container, matches)
    ensures multiset(Responses(Merged(a), Merged(a).rules, container, matches))
         == multiset(Responses(Merged(b), Merged(b).rules, container, matches))
  {
    var m, n := Merged(a), Merged(b);
    OrderDoesNotMatter(a, b, _ => true);
    SameElements(m.whitelists, n.whitelists);
    ResponsesTotal(m, m.rules, container, matches);
    ResponsesTotal(m, n.rules, container, matches);
    TotalPermuted(m.rules, n.rules, (r: RuleConfig) => multiset(RuleResponses(m, r, container, matches)));
    ResponsesSameMaps(m, n, n.rules, container, matches);
  }
}
