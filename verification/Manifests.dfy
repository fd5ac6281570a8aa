/** Merging and validating security manifests (src/config.rs, `load_and_merge_manifests`). */
module Manifests {
  import opened Wrappers
  import opened Playbook
  import opened Sequences

  /** One manifest file as parsed. */
  datatype Manifest = Manifest(
    playbooks: map<string, PlaybookConfig>,
    rules: seq<RuleConfig>,
    whitelists: seq<WhitelistConfig>,
    mappings: map<string, MappingConfig>)

  datatype MergeError =
    | Unreadable(index: nat)
    | PlaybookCollision(name: string)
    | RuleCollision(name: string)
    | WhitelistCollision(name: string)
    | MappingCollision(target: string)
    | NoRules
    | EmptyPlaybook(name: string)
    | BadTimeout(name: string, timeout: string)
    | UndefinedPlaybook(rule: string, playbook: string)
    | UndefinedRule(target: string, rule: string)
    | UndefinedWhitelist(target: string, whitelist: string)

  // ---------------------------------------------------------------- specification

  /** The manifests taken together: later files add to earlier ones, in the order of the files. */
  function Merged(ms: seq<Manifest>): Manifest {
    if ms == [] then Manifest(map[], [], [], map[])
    else
      var a, b := Merged(ms[..|ms| - 1]), ms[|ms| - 1];
      Manifest(a.playbooks + b.playbooks, a.rules + b.rules, a.whitelists + b.whitelists, a.mappings + b.mappings)
  }

  function RuleNames(rules: seq<RuleConfig>): seq<string> {
    seq(|rules|, i requires 0 <= i < |rules| => rules[i].name)
  }

  function WhitelistNames(whitelists: seq<WhitelistConfig>): seq<string> {
    seq(|whitelists|, i requires 0 <= i < |whitelists| => whitelists[i].name)
  }

  /** The names a manifest declares, each as often as it declares it. */
  function PlaybooksOf(m: Manifest): multiset<string> { multiset(m.playbooks.Keys) }

  function RulesOf(m: Manifest): multiset<string> { multiset(RuleNames(m.rules)) }

  function WhitelistsOf(m: Manifest): multiset<string> { multiset(WhitelistNames(m.whitelists)) }

  function MappingsOf(m: Manifest): multiset<string> { multiset(m.mappings.Keys) }

  function Total<S, T>(xs: seq<S>, of: S -> multiset<T>): multiset<T> {
    if xs == [] then multiset{} else Total(xs[..|xs| - 1], of) + of(xs[|xs| - 1])
  }

  ghost predicate Once(names: multiset<string>) {
    forall n :: names[n] <= 1
  }

  /** No playbook, rule, whitelist or mapping target is declared twice, in one file or in two. */
  ghost predicate CollisionFree(ms: seq<Manifest>) {
    && Once(Total(ms, PlaybooksOf)) && Once(Total(ms, RulesOf))
    && Once(Total(ms, WhitelistsOf)) && Once(Total(ms, MappingsOf))
  }

  predicate TimeoutOk(a: Action, validTimeout: string -> bool) {
    a.NftBlacklist? ==> validTimeout(a.timeout)
  }

  predicate PlaybookOk(p: PlaybookConfig, validTimeout: string -> bool) {
    && (p.tryActions != [] || p.finalActions != [])
    && (forall i :: 0 <= i < |p.tryActions| ==> TimeoutOk(p.tryActions[i], validTimeout))
    && (forall i :: 0 <= i < |p.finalActions| ==> TimeoutOk(p.finalActions[i], validTimeout))
  }

  /** Every playbook can act, and every reference names something declared. */
  ghost predicate Sound(m: Manifest, validTimeout: string -> bool) {
    && m.rules != []
    && (forall name :: name in m.playbooks ==> PlaybookOk(m.playbooks[name], validTimeout))
    && (forall r :: r in m.rules ==> r.playbook in m.playbooks)
    && (forall target :: target in m.mappings ==>
          && (forall n :: n in m.mappings[target].activeRules ==> n in RuleNames(m.rules))
          && (forall n :: n in m.mappings[target].activeWhitelists ==> n in WhitelistNames(m.whitelists)))
  }

  ghost predicate Acceptable(ms: seq<Manifest>, validTimeout: string -> bool) {
    CollisionFree(ms) && Sound(Merged(ms), validTimeout)
  }

  ghost predicate Readable(files: seq<Option<Manifest>>) {
    forall i :: 0 <= i < |files| ==> files[i].Some?
  }

  ghost function Contents(files: seq<Option<Manifest>>): seq<Manifest>
    requires Readable(files)
  {
    seq(|files|, i requires 0 <= i < |files| => files[i].value)
  }

  // ---------------------------------------------------------------- merging one file

  method MergeMap<V>(into: map<string, V>, more: map<string, V>) returns (r: Result<map<string, V>, string>)
    ensures r.Success? <==> into.Keys !! more.Keys
    ensures r.Success? ==> r.value == into + more
    ensures r.Failure? ==> r.error in into && r.error in more
  {
    var merged, todo := into, more.Keys;
    while todo != {}
      invariant todo <= more.Keys && into.Keys !! (more.Keys - todo)
      invariant merged.Keys == into.Keys + (more.Keys - todo)
      invariant forall k :: k in merged ==> merged[k] == if k in more.Keys - todo then more[k] else into[k]
    {
      var name :| name in todo;
      if name in merged {
        return Failure(name);
      }
      merged, todo := merged[name := more[name]], todo - {name};
    }
    r := Success(merged);
  }

  /** Adds declarations that carry a name of their own, against the names seen so far. */
  method MergeNames(seen: set<string>, names: seq<string>) returns (r: Result<set<string>, string>)
    ensures r.Success? <==> Distinct(names) && forall i :: 0 <= i < |names| ==> names[i] !in seen
    ensures r.Success? ==> r.value == seen + set n | n in names
    ensures r.Failure? ==> r.error in names && (r.error in seen || multiset(names)[r.error] > 1)
  {
    var all := seen;
    for i := 0 to |names|
      invariant all == seen + set n | n in names[..i]
      invariant Distinct(names[..i]) && forall j :: 0 <= j < i ==> names[j] !in seen
    {
      if names[i] in all {
        if names[i] !in seen {
          var j :| 0 <= j < i && names[j] == names[i];
          TwiceCounts(names, j, i);
        }
        return Failure(names[i]);
      }
      all := all + {names[i]};
    }
    assert names[..|names|] == names;
    r := Success(all);
  }

  lemma TwiceCounts(s: seq<string>, i: nat, j: nat)
    requires i < j < |s| && s[i] == s[j]
    ensures multiset(s)[s[i]] > 1
  {
    assert s == s[..j] + [s[j]] + s[j + 1..];
    assert s[i] in s[..j];
  }

  // ---------------------------------------------------------------- merging all files

  lemma OnceSum(a: multiset<string>, b: multiset<string>)
    ensures Once(a + b) <==> Once(a) && Once(b) && forall n :: n in a ==> n !in b
  {
    if Once(a + b) {
      forall n ensures a[n] + b[n] <= 1 { assert (a + b)[n] <= 1; }
    }
  }

  lemma {:induction false} OnceMeansDistinct(s: seq<string>)
    ensures Once(multiset(s)) <==> Distinct(s)
  {
    if s != [] {
      var n := |s| - 1;
      OnceMeansDistinct(s[..n]);
      assert s == s[..n] + [s[n]];
      OnceSum(multiset(s[..n]), multiset{s[n]});
      if s[n] in s[..n] {
        var i :| 0 <= i < n && s[i] == s[n];
      }
    }
  }

  lemma RuleNamesAppend(a: seq<RuleConfig>, b: seq<RuleConfig>)
    ensures RuleNames(a + b) == RuleNames(a) + RuleNames(b)
  {
  }

  lemma WhitelistNamesAppend(a: seq<WhitelistConfig>, b: seq<WhitelistConfig>)
    ensures WhitelistNames(a + b) == WhitelistNames(a) + WhitelistNames(b)
  {
  }

  /** The totals count the names of the merged manifest. */
  lemma {:induction false} TotalsOfMerged(ms: seq<Manifest>)
    ensures forall n :: n in Total(ms, PlaybooksOf) <==> n in Merged(ms).playbooks
    ensures forall n :: n in Total(ms, MappingsOf) <==> n in Merged(ms).mappings
    ensures Total(ms, RulesOf) == multiset(RuleNames(Merged(ms).rules))
    ensures Total(ms, WhitelistsOf) == multiset(WhitelistNames(Merged(ms).whitelists))
  {
    if ms != [] {
      var a, b := ms[..|ms| - 1], ms[|ms| - 1];
      TotalsOfMerged(a);
      RuleNamesAppend(Merged(a).rules, b.rules);
      WhitelistNamesAppend(Merged(a).whitelists, b.whitelists);
    }
  }

  /** Whether one more file collides with the files before it. */
  ghost predicate Joins(m: Manifest, b: Manifest) {
    && m.playbooks.Keys !! b.playbooks.Keys
    && Distinct(RuleNames(b.rules)) && (forall n :: n in RuleNames(b.rules) ==> n !in RuleNames(m.rules))
    && Distinct(WhitelistNames(b.whitelists))
    && (forall n :: n in WhitelistNames(b.whitelists) ==> n !in WhitelistNames(m.whitelists))
    && m.mappings.Keys !! b.mappings.Keys
  }

  lemma MergedMore(ms: seq<Manifest>, b: Manifest)
    ensures Merged(ms + [b]) == Manifest(Merged(ms).playbooks + b.playbooks, Merged(ms).rules + b.rules,
                                         Merged(ms).whitelists + b.whitelists, Merged(ms).mappings + b.mappings)
  {
    assert (ms + [b])[..|ms|] == ms;
  }

  lemma OnceKeys(a: multiset<string>, declared: set<string>, more: set<string>)
    requires forall n :: n in a <==> n in declared
    ensures Once(a + multiset(more)) <==> Once(a) && declared !! more
  {
    OnceSum(a, multiset(more));
    assert forall n :: n in multiset(more) <==> n in more;
  }

  lemma OnceMoreKeys(ms: seq<Manifest>, b: Manifest)
    ensures Once(Total(ms + [b], PlaybooksOf)) <==>
      Once(Total(ms, PlaybooksOf)) && Merged(ms).playbooks.Keys !! b.playbooks.Keys
    ensures Once(Total(ms + [b], MappingsOf)) <==>
      Once(Total(ms, MappingsOf)) && Merged(ms).mappings.Keys !! b.mappings.Keys
  {
    assert (ms + [b])[..|ms|] == ms;
    TotalsOfMerged(ms);
    OnceKeys(Total(ms, PlaybooksOf), Merged(ms).playbooks.Keys, b.playbooks.Keys);
    OnceKeys(Total(ms, MappingsOf), Merged(ms).mappings.Keys, b.mappings.Keys);
  }

  lemma OnceBoth(a: seq<string>, b: seq<string>)
    ensures Once(multiset(a) + multiset(b)) <==>
      Once(multiset(a)) && Distinct(b) && forall n :: n in b ==> n !in a
  {
    OnceSum(multiset(a), multiset(b));
    OnceMeansDistinct(b);
    assert forall n :: n in multiset(a) <==> n in a;
    assert forall n :: n in multiset(b) <==> n in b;
  }

  lemma OnceMoreNames(ms: seq<Manifest>, b: Manifest)
    ensures Once(Total(ms + [b], RulesOf)) <==>
      && Once(Total(ms, RulesOf)) && Distinct(RuleNames(b.rules))
      && forall n :: n in RuleNames(b.rules) ==> n !in RuleNames(Merged(ms).rules)
    ensures Once(Total(ms + [b], WhitelistsOf)) <==>
      && Once(Total(ms, WhitelistsOf)) && Distinct(WhitelistNames(b.whitelists))
      && forall n :: n in WhitelistNames(b.whitelists) ==> n !in WhitelistNames(Merged(ms).whitelists)
  {
    assert (ms + [b])[..|ms|] == ms;
    TotalsOfMerged(ms);
    OnceBoth(RuleNames(Merged(ms).rules), RuleNames(b.rules));
    OnceBoth(WhitelistNames(Merged(ms).whitelists), WhitelistNames(b.whitelists));
  }

  lemma CollisionFreeStep(ms: seq<Manifest>, b: Manifest)
    ensures CollisionFree(ms + [b]) <==> CollisionFree(ms) && Joins(Merged(ms), b)
  {
    OnceMoreKeys(ms, b);
    OnceMoreNames(ms, b);
  }

  method MergeOne(into: Manifest, m: Manifest) returns (r: Result<Manifest, MergeError>)
    ensures r.Success? <==> Joins(into, m)
    ensures r.Success? ==> r.value == Manifest(into.playbooks + m.playbooks, into.rules + m.rules,
                                               into.whitelists + m.whitelists, into.mappings + m.mappings)
    ensures r.Failure? ==> Collides(r.error, into, m)
  {
    var playbooks := MergeMap(into.playbooks, m.playbooks);
    if playbooks.Failure? { return Failure(PlaybookCollision(playbooks.error)); }
    var seenRules := set n | n in RuleNames(into.rules);
    var rules := MergeNames(seenRules, RuleNames(m.rules));
    if rules.Failure? { return Failure(RuleCollision(rules.error)); }
    var seenWhitelists := set n | n in WhitelistNames(into.whitelists);
    var whitelists := MergeNames(seenWhitelists, WhitelistNames(m.whitelists));
    if whitelists.Failure? { return Failure(WhitelistCollision(whitelists.error)); }
    var mappings := MergeMap(into.mappings, m.mappings);
    if mappings.Failure? { return Failure(MappingCollision(mappings.error)); }
    r := Success(Manifest(playbooks.value, into.rules + m.rules, into.whitelists + m.whitelists, mappings.value));
  }

  /** The declaration an error names is really declared twice. */
  ghost predicate Collides(e: MergeError, into: Manifest, m: Manifest) {
    match e
    case PlaybookCollision(n) => n in into.playbooks && n in m.playbooks
    case RuleCollision(n) => n in RuleNames(m.rules) && (n in RuleNames(into.rules) || RulesOf(m)[n] > 1)
    case WhitelistCollision(n) =>
      n in WhitelistNames(m.whitelists) && (n in WhitelistNames(into.whitelists) || WhitelistsOf(m)[n] > 1)
    case MappingCollision(t) => t in into.mappings && t in m.mappings
    case _ => false
  }

  /** What a validation error claims about the merged manifest. */
  ghost predicate Unsound(e: MergeError, m: Manifest, validTimeout: string -> bool) {
    match e
    case NoRules => m.rules == []
    case EmptyPlaybook(n) => n in m.playbooks && m.playbooks[n].tryActions == [] == m.playbooks[n].finalActions
    case BadTimeout(n, t) =>
      n in m.playbooks && !validTimeout(t) &&
      exists a :: a in m.playbooks[n].tryActions + m.playbooks[n].finalActions && a.NftBlacklist? && a.timeout == t
    case UndefinedPlaybook(r, p) => p !in m.playbooks && exists c :: c in m.rules && c.name == r && c.playbook == p
    case UndefinedRule(t, n) => t in m.mappings && n in m.mappings[t].activeRules && n !in RuleNames(m.rules)
    case UndefinedWhitelist(t, n) =>
      t in m.mappings && n in m.mappings[t].activeWhitelists && n !in WhitelistNames(m.whitelists)
    case _ => false
  }

  /** Why merging fails: a file that cannot be read, the first collision, or an unsound whole. */
  ghost predicate Explains(e: MergeError, files: seq<Option<Manifest>>, validTimeout: string -> bool) {
    || (e.Unreadable? && e.index < |files| && files[e.index].None?)
    || (exists i :: 0 <= i < |files| && Readable(files[..i + 1]) &&
          Collides(e, Merged(Contents(files[..i])), files[i].value))
    || (Readable(files) && Unsound(e, Merged(Contents(files)), validTimeout))
  }

  lemma ContentsMore(files: seq<Option<Manifest>>, i: nat)
    requires i < |files| && Readable(files[..i]) && files[i].Some?
    ensures Readable(files[..i + 1]) && Contents(files[..i + 1]) == Contents(files[..i]) + [files[i].value]
  {
  }

  method LoadAndMerge(files: seq<Option<Manifest>>, validTimeout: string -> bool)
    returns (r: Result<Manifest, MergeError>)
    ensures r.Success? <==> Readable(files) && Acceptable(Contents(files), validTimeout)
    ensures r.Success? ==> r.value == Merged(Contents(files))
    ensures r.Failure? ==> Explains(r.error, files, validTimeout)
  {
    r := MergeFiles(files);
    if r.Success? {
      var problem := Validate(r.value, validTimeout);
      if problem.Some? {
        r := Failure(problem.value);
      }
    }
  }

  method MergeFiles(files: seq<Option<Manifest>>) returns (r: Result<Manifest, MergeError>)
    ensures r.Success? <==> Readable(files) && CollisionFree(Contents(files))
    ensures r.Success? ==> r.value == Merged(Contents(files))
    ensures r.Failure? ==> forall validTimeout :: Explains(r.error, files, validTimeout)
  {
    var merged := Manifest(map[], [], [], map[]);
    for i := 0 to |files|
      invariant Readable(files[..i]) && CollisionFree(Contents(files[..i]))
      invariant merged == Merged(Contents(files[..i]))
    {
      if files[i].None? {
        return Failure(Unreadable(i));
      }
      ContentsMore(files, i);
      CollisionFreeStep(Contents(files[..i]), files[i].value);
      MergedMore(Contents(files[..i]), files[i].value);
      var next := MergeOne(merged, files[i].value);
      if next.Failure? {
        CollisionStays(files, i + 1);
        return Failure(next.error);
      }
      merged := next.value;
    }
    assert files[..|files|] == files;
    r := Success(merged);
  }

  lemma {:induction false} CollisionStays(files: seq<Option<Manifest>>, i: nat)
    requires i <= |files| && Readable(files[..i]) && !CollisionFree(Contents(files[..i]))
    ensures Readable(files) ==> !CollisionFree(Contents(files))
    decreases |files| - i
  {
    if i == |files| {
      assert files[..i] == files;
    } else if files[i].Some? {
      ContentsMore(files, i);
      CollisionFreeStep(Contents(files[..i]), files[i].value);
      CollisionStays(files, i + 1);
    }
  }

  // ---------------------------------------------------------------- validating the whole

  method Validate(m: Manifest, validTimeout: string -> bool) returns (problem: Option<MergeError>)
    ensures problem.None? <==> Sound(m, validTimeout)
    ensures problem.Some? ==> Unsound(problem.value, m, validTimeout)
  {
    if m.rules == [] {
      return Some(NoRules);
    }
    problem := CheckPlaybooks(m, validTimeout);
    if problem.Some? { return; }
    for i := 0 to |m.rules|
      invariant forall j :: 0 <= j < i ==> m.rules[j].playbook in m.playbooks
    {
      if m.rules[i].playbook !in m.playbooks {
        assert m.rules[i] in m.rules;
        return Some(UndefinedPlaybook(m.rules[i].name, m.rules[i].playbook));
      }
    }
    problem := CheckMappings(m);
  }

  method CheckPlaybooks(m: Manifest, validTimeout: string -> bool) returns (problem: Option<MergeError>)
    ensures problem.None? <==> forall n :: n in m.playbooks ==> PlaybookOk(m.playbooks[n], validTimeout)
    ensures problem.Some? ==> Unsound(problem.value, m, validTimeout)
  {
    var todo := m.playbooks.Keys;
    while todo != {}
      invariant todo <= m.playbooks.Keys
      invariant forall n :: n in m.playbooks.Keys - todo ==> PlaybookOk(m.playbooks[n], validTimeout)
    {
      var name :| name in todo;
      problem := CheckPlaybook(name, m.playbooks[name], validTimeout);
      if problem.Some? { return; }
      todo := todo - {name};
    }
    problem := None;
  }

  method CheckPlaybook(name: string, p: PlaybookConfig, validTimeout: string -> bool)
    returns (problem: Option<MergeError>)
    ensures problem.None? <==> PlaybookOk(p, validTimeout)
    ensures problem.Some? ==>
      || (problem.value == EmptyPlaybook(name) && p.tryActions == [] == p.finalActions)
      || (problem.value.BadTimeout? && problem.value.name == name && !validTimeout(problem.value.timeout)
          && exists a :: a in p.tryActions + p.finalActions && a.NftBlacklist? && a.timeout == problem.value.timeout)
  {
    if p.tryActions == [] && p.finalActions == [] {
      return Some(EmptyPlaybook(name));
    }
    var all := p.tryActions + p.finalActions;
    for i := 0 to |all|
      invariant forall j :: 0 <= j < i ==> TimeoutOk(all[j], validTimeout)
    {
      if all[i].NftBlacklist? && !validTimeout(all[i].timeout) {
        assert all[i] in all;
        BadActionMatters(p, i, validTimeout);
        return Some(BadTimeout(name, all[i].timeout));
      }
    }
    assert forall j :: 0 <= j < |p.tryActions| ==> p.tryActions[j] == all[j];
    assert forall j :: 0 <= j < |p.finalActions| ==> p.finalActions[j] == all[|p.tryActions| + j];
    problem := None;
  }

  lemma BadActionMatters(p: PlaybookConfig, i: nat, validTimeout: string -> bool)
    requires i < |p.tryActions + p.finalActions| && !TimeoutOk((p.tryActions + p.finalActions)[i], validTimeout)
    ensures !PlaybookOk(p, validTimeout)
  {
  }

  method CheckMappings(m: Manifest) returns (problem: Option<MergeError>)
    ensures problem.None? <==> forall t :: t in m.mappings ==>
      && (forall n :: n in m.mappings[t].activeRules ==> n in RuleNames(m.rules))
      && (forall n :: n in m.mappings[t].activeWhitelists ==> n in WhitelistNames(m.whitelists))
    ensures problem.Some? ==> problem.value.UndefinedRule? || problem.value.UndefinedWhitelist?
    ensures problem.Some? ==> Unsound(problem.value, m, _ => true)
  {
    var ruleNames, whitelistNames := RuleNames(m.rules), WhitelistNames(m.whitelists);
    var todo := m.mappings.Keys;
    while todo != {}
      invariant todo <= m.mappings.Keys
      invariant forall t :: t in m.mappings.Keys - todo ==>
        && (forall n :: n in m.mappings[t].activeRules ==> n in ruleNames)
        && (forall n :: n in m.mappings[t].activeWhitelists ==> n in whitelistNames)
    {
      var target :| target in todo;
      var mapping := m.mappings[target];
      for i := 0 to |mapping.activeRules|
        invariant forall j :: 0 <= j < i ==> mapping.activeRules[j] in ruleNames
      {
        if mapping.activeRules[i] !in ruleNames {
          assert mapping.activeRules[i] in mapping.activeRules;
          return Some(UndefinedRule(target, mapping.activeRules[i]));
        }
      }
      for i := 0 to |mapping.activeWhitelists|
        invariant forall j :: 0 <= j < i ==> mapping.activeWhitelists[j] in whitelistNames
      {
        if mapping.activeWhitelists[i] !in whitelistNames {
          assert mapping.activeWhitelists[i] in mapping.activeWhitelists;
          return Some(UndefinedWhitelist(target, mapping.activeWhitelists[i]));
        }
      }
      todo := todo - {target};
    }
    problem := None;
  }

  // ---------------------------------------------------------------- the order of the files

  lemma {:induction false} TotalAppend<S, T>(a: seq<S>, b: seq<S>, of: S -> multiset<T>)
    ensures Total(a + b, of) == Total(a, of) + Total(b, of)
  {
    if b == [] {
      assert a + b == a;
    } else {
      var n := |b| - 1;
      TotalAppend(a, b[..n], of);
      assert (a + b)[..|a + b| - 1] == a + b[..n];
    }
  }

  lemma {:induction false} TotalPermuted<S, T>(a: seq<S>, b: seq<S>, of: S -> multiset<T>)
    requires multiset(a) == multiset(b)
    ensures Total(a, of) == Total(b, of)
  {
    if a == [] {
      assert b == [] by { assert |multiset(b)| == 0; }
    } else {
      var n := |a| - 1;
      assert a == a[..n] + [a[n]];
      assert a[n] in multiset(b);
      var i :| 0 <= i < |b| && b[i] == a[n];
      var rest := b[..i] + b[i + 1..];
      assert b == b[..i] + [b[i]] + b[i + 1..];
      assert multiset(a) == multiset(a[..n]) + multiset{a[n]};
      assert multiset(b) == multiset(rest) + multiset{b[i]};
      assert multiset(a[..n]) == multiset(a) - multiset{a[n]};
      assert multiset(rest) == multiset(b) - multiset{b[i]};
      TotalPermuted(a[..n], rest, of);
      TotalAppend(b[..i], b[i + 1..], of);
      TotalAppend(b[..i] + [b[i]], b[i + 1..], of);
      TotalAppend(b[..i], [b[i]], of);
      assert [b[i]][..0] == [];
    }
  }

  function RuleBag(m: Manifest): multiset<RuleConfig> { multiset(m.rules) }

  function WhitelistBag(m: Manifest): multiset<WhitelistConfig> { multiset(m.whitelists) }

  lemma {:induction false} BagsOfMerged(ms: seq<Manifest>)
    ensures Total(ms, RuleBag) == multiset(Merged(ms).rules)
    ensures Total(ms, WhitelistBag) == multiset(Merged(ms).whitelists)
  {
    if ms != [] {
      BagsOfMerged(ms[..|ms| - 1]);
    }
  }

  /** In a collision-free merge every declared playbook survives as declared. */
  lemma {:induction false} PlaybookSurvives(ms: seq<Manifest>, m: Manifest, n: string)
    requires Once(Total(ms, PlaybooksOf)) && m in ms && n in m.playbooks
    ensures n in Merged(ms).playbooks && Merged(ms).playbooks[n] == m.playbooks[n]
  {
    var front, last := ms[..|ms| - 1], ms[|ms| - 1];
    assert ms == front + [last];
    OnceMoreKeys(front, last);
    if m != last {
      PlaybookSurvives(front, m, n);
    }
  }

  lemma {:induction false} PlaybookDeclared(ms: seq<Manifest>, n: string)
    requires n in Merged(ms).playbooks
    ensures exists m :: m in ms && n in m.playbooks
  {
    if n !in ms[|ms| - 1].playbooks {
      PlaybookDeclared(ms[..|ms| - 1], n);
    } else {
      assert ms[|ms| - 1] in ms;
    }
  }

  lemma {:induction false} MappingSurvives(ms: seq<Manifest>, m: Manifest, t: string)
    requires Once(Total(ms, MappingsOf)) && m in ms && t in m.mappings
    ensures t in Merged(ms).mappings && Merged(ms).mappings[t] == m.mappings[t]
  {
    var front, last := ms[..|ms| - 1], ms[|ms| - 1];
    assert ms == front + [last];
    OnceMoreKeys(front, last);
    if m != last {
      MappingSurvives(front, m, t);
    }
  }

  lemma {:induction false} MappingDeclared(ms: seq<Manifest>, t: string)
    requires t in Merged(ms).mappings
    ensures exists m :: m in ms && t in m.mappings
  {
    if t !in ms[|ms| - 1].mappings {
      MappingDeclared(ms[..|ms| - 1], t);
    } else {
      assert ms[|ms| - 1] in ms;
    }
  }

  lemma MapsWithin(a: seq<Manifest>, b: seq<Manifest>)
    requires multiset(a) == multiset(b)
    requires Once(Total(a, PlaybooksOf)) && Once(Total(b, PlaybooksOf))
    requires Once(Total(a, MappingsOf)) && Once(Total(b, MappingsOf))
    ensures forall n :: n in Merged(a).playbooks ==>
      n in Merged(b).playbooks && Merged(b).playbooks[n] == Merged(a).playbooks[n]
    ensures forall t :: t in Merged(a).mappings ==>
      t in Merged(b).mappings && Merged(b).mappings[t] == Merged(a).mappings[t]
  {
    SameElements(a, b);
    forall n | n in Merged(a).playbooks
      ensures n in Merged(b).playbooks && Merged(b).playbooks[n] == Merged(a).playbooks[n]
    {
      PlaybookDeclared(a, n);
      var m :| m in a && n in m.playbooks;
      PlaybookSurvives(a, m, n);
      PlaybookSurvives(b, m, n);
    }
    forall t | t in Merged(a).mappings
      ensures t in Merged(b).mappings && Merged(b).mappings[t] == Merged(a).mappings[t]
    {
      MappingDeclared(a, t);
      var m :| m in a && t in m.mappings;
      MappingSurvives(a, m, t);
      MappingSurvives(b, m, t);
    }
  }

  lemma SameMaps(a: seq<Manifest>, b: seq<Manifest>)
    requires multiset(a) == multiset(b) && CollisionFree(a) && CollisionFree(b)
    ensures Merged(a).playbooks == Merged(b).playbooks && Merged(a).mappings == Merged(b).mappings
  {
    MapsWithin(a, b);
    MapsWithin(b, a);
    EqualMaps(Merged(a).playbooks, Merged(b).playbooks);
    EqualMaps(Merged(a).mappings, Merged(b).mappings);
  }

  lemma EqualMaps<V>(a: map<string, V>, b: map<string, V>)
    requires forall k :: k in a ==> k in b && b[k] == a[k]
    requires forall k :: k in b ==> k in a
    ensures a == b
  {
  }

  /**
    The order of the files changes neither whether they are accepted nor the merged maps, and only the
    order of rules and whitelists.
  */
  lemma OrderDoesNotMatter(a: seq<Manifest>, b: seq<Manifest>, validTimeout: string -> bool)
    requires multiset(a) == multiset(b)
    ensures Acceptable(a, validTimeout) <==> Acceptable(b, validTimeout)
    ensures CollisionFree(a) ==>
      && Merged(a).playbooks == Merged(b).playbooks && Merged(a).mappings == Merged(b).mappings
      && multiset(Merged(a).rules) == multiset(Merged(b).rules)
      && multiset(Merged(a).whitelists) == multiset(Merged(b).whitelists)
  {
    TotalPermuted(a, b, PlaybooksOf);
    TotalPermuted(a, b, RulesOf);
    TotalPermuted(a, b, WhitelistsOf);
    TotalPermuted(a, b, MappingsOf);
    if CollisionFree(a) {
      SameMaps(a, b);
      TotalPermuted(a, b, RuleBag);
      TotalPermuted(a, b, WhitelistBag);
      BagsOfMerged(a);
      BagsOfMerged(b);
      if Sound(Merged(a), validTimeout) { SoundPermuted(Merged(a), Merged(b), validTimeout); }
      if Sound(Merged(b), validTimeout) { SoundPermuted(Merged(b), Merged(a), validTimeout); }
    }
  }

  lemma SoundPermuted(m: Manifest, n: Manifest, validTimeout: string -> bool)
    requires Sound(m, validTimeout) && m.playbooks == n.playbooks && m.mappings == n.mappings
    requires multiset(m.rules) == multiset(n.rules) && multiset(m.whitelists) == multiset(n.whitelists)
    ensures Sound(n, validTimeout)
  {
    SameElements(m.rules, n.rules);
    SameElements(m.whitelists, n.whitelists);
    SameRuleNames(m.rules, n.rules);
    SameWhitelistNames(m.whitelists, n.whitelists);
  }

  lemma SameElements<T>(a: seq<T>, b: seq<T>)
    requires multiset(a) == multiset(b)
    ensures forall x :: x in a <==> x in b
  {
    forall x ensures x in a <==> x in b {
      assert x in multiset(a) <==> x in multiset(b);
    }
  }

  lemma SameRuleNames(a: seq<RuleConfig>, b: seq<RuleConfig>)
    requires forall r :: r in a ==> r in b
    ensures forall n :: n in RuleNames(a) ==> n in RuleNames(b)
  {
    forall n | n in RuleNames(a) ensures n in RuleNames(b) {
      var i :| 0 <= i < |a| && a[i].name == n;
      assert a[i] in b;
      var j :| 0 <= j < |b| && b[j] == a[i];
      assert RuleNames(b)[j] == n;
    }
  }

  lemma SameWhitelistNames(a: seq<WhitelistConfig>, b: seq<WhitelistConfig>)
    requires forall w :: w in a ==> w in b
    ensures forall n :: n in WhitelistNames(a) ==> n in WhitelistNames(b)
  {
    forall n | n in WhitelistNames(a) ensures n in WhitelistNames(b) {
      var i :| 0 <= i < |a| && a[i].name == n;
      assert a[i] in b;
      var j :| 0 <= j < |b| && b[j] == a[i];
      assert WhitelistNames(b)[j] == n;
    }
  }

  // ---------------------------------------------------------------- what acceptance comes to

  /** Two manifests taken together. */
  function Both(l: Manifest, r: Manifest): Manifest {
    Manifest(l.playbooks + r.playbooks, l.rules + r.rules, l.whitelists + r.whitelists, l.mappings + r.mappings)
  }

  lemma BothAgain(a: Manifest, b: Manifest, c: Manifest)
    ensures Both(Both(a, b), c) == Both(a, Both(b, c))
  {
    assert (a.playbooks + b.playbooks) + c.playbooks == a.playbooks + (b.playbooks + c.playbooks);
    assert (a.rules + b.rules) + c.rules == a.rules + (b.rules + c.rules);
    assert (a.whitelists + b.whitelists) + c.whitelists == a.whitelists + (b.whitelists + c.whitelists);
    assert (a.mappings + b.mappings) + c.mappings == a.mappings + (b.mappings + c.mappings);
  }

  lemma BothNothing(m: Manifest)
    ensures Both(m, Manifest(map[], [], [], map[])) == m == Both(Manifest(map[], [], [], map[]), m)
  {
    assert m.playbooks + map[] == m.playbooks == map[] + m.playbooks;
    assert m.mappings + map[] == m.mappings == map[] + m.mappings;
  }

  lemma MergedLast(ms: seq<Manifest>)
    requires ms != []
    ensures Merged(ms) == Both(Merged(ms[..|ms| - 1]), ms[|ms| - 1])
  {
  }

  lemma {:induction false} MergedAlone(m: Manifest)
    ensures Merged([m]) == m
  {
    assert [m][..0] == [];
    BothNothing(m);
  }

  /** Merging some files and then others is merging them all. */
  lemma {:induction false} MergedTogether(a: seq<Manifest>, b: seq<Manifest>)
    ensures Merged(a + b) == Both(Merged(a), Merged(b))
  {
    if b == [] {
      assert a + b == a;
      BothNothing(Merged(a));
    } else {
      var n := |b| - 1;
      calc {
        Merged(a + b);
      == { MergedLast(a + b); assert (a + b)[..|a + b| - 1] == a + b[..n]; }
        Both(Merged(a + b[..n]), b[n]);
      == { MergedTogether(a, b[..n]); }
        Both(Both(Merged(a), Merged(b[..n])), b[n]);
      == { BothAgain(Merged(a), Merged(b[..n]), b[n]); }
        Both(Merged(a), Both(Merged(b[..n]), b[n]));
      == { MergedLast(b); }
        Both(Merged(a), Merged(b));
      }
    }
  }

  function PlaybookKeys(ms: seq<Manifest>): seq<set<string>> {
    seq(|ms|, i requires 0 <= i < |ms| => ms[i].playbooks.Keys)
  }

  function MappingKeys(ms: seq<Manifest>): seq<set<string>> {
    seq(|ms|, i requires 0 <= i < |ms| => ms[i].mappings.Keys)
  }

  ghost predicate Apart(ks: seq<set<string>>) {
    forall i, j :: 0 <= i < j < |ks| ==> ks[i] !! ks[j]
  }

  function Union(ks: seq<set<string>>): set<string> {
    if ks == [] then {} else Union(ks[..|ks| - 1]) + ks[|ks| - 1]
  }

  lemma {:induction false} UnionHas(ks: seq<set<string>>)
    ensures forall n :: n in Union(ks) <==> exists i :: 0 <= i < |ks| && n in ks[i]
  {
    if ks != [] {
      var k := |ks| - 1;
      UnionHas(ks[..k]);
      assert ks == ks[..k] + [ks[k]];
    }
  }

  lemma {:induction false} ApartMore(ks: seq<set<string>>, more: set<string>)
    ensures Apart(ks + [more]) <==> Apart(ks) && Union(ks) !! more
  {
    var all, n := ks + [more], |ks|;
    UnionHas(ks);
    if Apart(all) {
      forall i, j | 0 <= i < j < n ensures ks[i] !! ks[j] {
        assert all[i] !! all[j];
      }
      forall i | 0 <= i < n ensures ks[i] !! more {
        assert all[i] !! all[n];
      }
    }
  }

  lemma {:induction false} KeysOfMerged(ms: seq<Manifest>)
    ensures Union(PlaybookKeys(ms)) == Merged(ms).playbooks.Keys
    ensures Union(MappingKeys(ms)) == Merged(ms).mappings.Keys
  {
    if ms != [] {
      var n := |ms| - 1;
      KeysOfMerged(ms[..n]);
      assert PlaybookKeys(ms)[..n] == PlaybookKeys(ms[..n]) && MappingKeys(ms)[..n] == MappingKeys(ms[..n]);
    }
  }

  lemma KeysMore(ms: seq<Manifest>, b: Manifest)
    ensures PlaybookKeys(ms + [b]) == PlaybookKeys(ms) + [b.playbooks.Keys]
    ensures MappingKeys(ms + [b]) == MappingKeys(ms) + [b.mappings.Keys]
  {
  }

  lemma {:induction false} KeysOnceMore(ms: seq<Manifest>, b: Manifest)
    requires Once(Total(ms, PlaybooksOf)) <==> Apart(PlaybookKeys(ms))
    requires Once(Total(ms, MappingsOf)) <==> Apart(MappingKeys(ms))
    ensures Once(Total(ms + [b], PlaybooksOf)) <==> Apart(PlaybookKeys(ms + [b]))
    ensures Once(Total(ms + [b], MappingsOf)) <==> Apart(MappingKeys(ms + [b]))
  {
    KeysOfMerged(ms);
    OnceMoreKeys(ms, b);
    KeysMore(ms, b);
    ApartMore(PlaybookKeys(ms), b.playbooks.Keys);
    ApartMore(MappingKeys(ms), b.mappings.Keys);
  }

  lemma {:induction false} KeysOnce(ms: seq<Manifest>)
    ensures Once(Total(ms, PlaybooksOf)) <==> Apart(PlaybookKeys(ms))
    ensures Once(Total(ms, MappingsOf)) <==> Apart(MappingKeys(ms))
  {
    if ms != [] {
      var n := |ms| - 1;
      KeysOnce(ms[..n]);
      KeysOnceMore(ms[..n], ms[n]);
      assert ms == ms[..n] + [ms[n]];
    }
  }

  /**
    Files collide unless no two of them declare the same playbook or the same mapping target, and no
    rule name and no whitelist name is used twice in all of them.
  */
  lemma {:induction false} CollisionFreeMeans(ms: seq<Manifest>)
    ensures CollisionFree(ms) <==>
      && (forall i, j :: 0 <= i < j < |ms| ==> PlaybookKeys(ms)[i] !! PlaybookKeys(ms)[j])
      && (forall i, j :: 0 <= i < j < |ms| ==> MappingKeys(ms)[i] !! MappingKeys(ms)[j])
      && Distinct(RuleNames(Merged(ms).rules)) && Distinct(WhitelistNames(Merged(ms).whitelists))
  {
    TotalsOfMerged(ms);
    OnceMeansDistinct(RuleNames(Merged(ms).rules));
    OnceMeansDistinct(WhitelistNames(Merged(ms).whitelists));
    KeysOnce(ms);
  }

  /** A manifest is sound exactly if nothing that a validation error could claim is true of it. */
  lemma {:induction false} SoundExactly(m: Manifest, validTimeout: string -> bool)
    ensures Sound(m, validTimeout) <==> forall e :: !Unsound(e, m, validTimeout)
  {
    if !Sound(m, validTimeout) {
      var e := SomethingWrong(m, validTimeout);
    }
  }

  lemma {:induction false} PlaybookWrong(m: Manifest, n: string, validTimeout: string -> bool)
    returns (e: MergeError)
    requires n in m.playbooks && !PlaybookOk(m.playbooks[n], validTimeout)
    ensures Unsound(e, m, validTimeout)
  {
    var p := m.playbooks[n];
    if p.tryActions == [] && p.finalActions == [] {
      return EmptyPlaybook(n);
    }
    var all := p.tryActions + p.finalActions;
    if i :| 0 <= i < |p.tryActions| && !TimeoutOk(p.tryActions[i], validTimeout) {
      assert all[i] == p.tryActions[i] && all[i] in all;
      return BadTimeout(n, all[i].timeout);
    }
    var i :| 0 <= i < |p.finalActions| && !TimeoutOk(p.finalActions[i], validTimeout);
    assert all[|p.tryActions| + i] == p.finalActions[i] && p.finalActions[i] in all;
    e := BadTimeout(n, p.finalActions[i].timeout);
  }

  lemma {:induction false} SomethingWrong(m: Manifest, validTimeout: string -> bool) returns (e: MergeError)
    requires !Sound(m, validTimeout)
    ensures Unsound(e, m, validTimeout)
  {
    if m.rules == [] {
      return NoRules;
    }
    if n :| n in m.playbooks && !PlaybookOk(m.playbooks[n], validTimeout) {
      e := PlaybookWrong(m, n, validTimeout);
      return;
    }
    if r :| r in m.rules && r.playbook !in m.playbooks {
      return UndefinedPlaybook(r.name, r.playbook);
    }
    if t, n :| t in m.mappings && n in m.mappings[t].activeRules && n !in RuleNames(m.rules) {
      return UndefinedRule(t, n);
    }
    var t, n :| t in m.mappings && n in m.mappings[t].activeWhitelists && n !in WhitelistNames(m.whitelists);
    e := UndefinedWhitelist(t, n);
  }
}
