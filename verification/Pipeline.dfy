/** The try/final executor (src/worker.rs, `execute_containment_pipeline`) and the firewall action. */
module Pipeline {
  import opened Playbook

  /** One executed action and how it went. */
  datatype Executed = Executed(action: Action, ok: bool)

  /** The actions executed from the try list, then those from the final list. */
  datatype Trace = Trace(tried: seq<Executed>, fallback: seq<Executed>)

  function ActionsOf(steps: seq<Executed>): seq<Action> {
    seq(|steps|, i requires 0 <= i < |steps| => steps[i].action)
  }

  /** Actions after which the fallback sequence stops, when they succeed. */
  predicate IsTerminal(a: Action) {
    a.Restart? || (a.ContainerSignal? && (a.signal == "SIGKILL" || a.signal == "SIGSTOP"))
  }

  predicate Stops(e: Executed) {
    e.ok && IsTerminal(e.action)
  }

  predicate FailedTry(t: Trace) {
    t.tried != [] && !t.tried[|t.tried| - 1].ok
  }

  // ---------------------------------------------------------------- specification

  /**
    Try actions up to and including the first failure; fallbacks only if there was one, up to and
    including the first terminal action that succeeds; a fallback that fails changes nothing.
  */
  ghost predicate IsTrace(tryActions: seq<Action>, finalActions: seq<Action>, t: Trace) {
    && ActionsOf(t.tried) <= tryActions
    && (forall i :: 0 <= i < |t.tried| - 1 ==> t.tried[i].ok)
    && (!FailedTry(t) ==> |t.tried| == |tryActions| && t.fallback == [])
    && ActionsOf(t.fallback) <= finalActions
    && (forall i :: 0 <= i < |t.fallback| - 1 ==> !Stops(t.fallback[i]))
    && (FailedTry(t) && |t.fallback| < |finalActions| ==> t.fallback != [] && Stops(t.fallback[|t.fallback| - 1]))
  }

  /** The k-th action executed went as `succeeds(k)` says. */
  ghost predicate Obeys(t: Trace, succeeds: nat -> bool) {
    && (forall i :: 0 <= i < |t.tried| ==> t.tried[i].ok == succeeds(i))
    && (forall i :: 0 <= i < |t.fallback| ==> t.fallback[i].ok == succeeds(|t.tried| + i))
  }

  // ---------------------------------------------------------------- the code

  method ExecutePipeline(tryActions: seq<Action>, finalActions: seq<Action>, succeeds: nat -> bool) returns (t: Trace)
    ensures IsTrace(tryActions, finalActions, t) && Obeys(t, succeeds)
  {
    var tried: seq<Executed>, pipelineFailed := [], false;
    for i := 0 to |tryActions|
      invariant |tried| == i && ActionsOf(tried) == tryActions[..i] && !pipelineFailed
      invariant forall j :: 0 <= j < i ==> tried[j].ok && succeeds(j)
    {
      tried := tried + [Executed(tryActions[i], succeeds(i))];
      if !succeeds(i) {
        pipelineFailed := true;
        break;
      }
    }
    var fallback: seq<Executed> := [];
    if pipelineFailed {
      for i := 0 to |finalActions|
        invariant |fallback| == i && ActionsOf(fallback) == finalActions[..i]
        invariant forall j :: 0 <= j < i ==> !Stops(fallback[j]) && fallback[j].ok == succeeds(|tried| + j)
      {
        var a := finalActions[i];
        var ok := succeeds(|tried| + i);
        fallback := fallback + [Executed(a, ok)];
        if ok {
          match a {
            case ContainerSignal(signal) =>
              if signal == "SIGKILL" || signal == "SIGSTOP" {
                break;
              }
            case Restart =>
              break;
            case _ =>
          }
        }
      }
    }
    t := Trace(tried, fallback);
  }

  // ---------------------------------------------------------------- what a trace tells

  /** The actions after whose success nothing else is tried: a restart, SIGKILL, SIGSTOP. */
  const LAST_RESORTS := {Restart, ContainerSignal("SIGKILL"), ContainerSignal("SIGSTOP")}

  /**
    A pipeline carries out its try list, or stops at the first action that fails and then carries out its
    final list, up to a restart, SIGKILL or SIGSTOP that succeeds and not a step further.
  */
  lemma {:induction false} TraceRunsPlaybook(tryActions: seq<Action>, finalActions: seq<Action>, t: Trace)
    requires IsTrace(tryActions, finalActions, t)
    ensures (forall i :: 0 <= i < |t.tried| ==> t.tried[i].ok) ==> ActionsOf(t.tried) == tryActions && t.fallback == []
    ensures (exists i :: 0 <= i < |t.tried| && !t.tried[i].ok) ==>
      || ActionsOf(t.fallback) == finalActions
      || (t.fallback != [] && t.fallback[|t.fallback| - 1].ok && t.fallback[|t.fallback| - 1].action in LAST_RESORTS)
    ensures forall i :: 0 <= i < |t.tried| && !t.tried[i].ok ==> i == |t.tried| - 1
    ensures forall i :: 0 <= i < |t.fallback| && t.fallback[i].ok && t.fallback[i].action in LAST_RESORTS ==>
      i == |t.fallback| - 1
  {
    assert ActionsOf(t.tried) == tryActions[..|t.tried|];
    assert ActionsOf(t.fallback) == finalActions[..|t.fallback|];
  }

  lemma SameTried(tryActions: seq<Action>, finalActions: seq<Action>, succeeds: nat -> bool, s: Trace, t: Trace)
    requires IsTrace(tryActions, finalActions, s) && Obeys(s, succeeds)
    requires IsTrace(tryActions, finalActions, t) && Obeys(t, succeeds)
    ensures s.tried == t.tried
  {
    assert |s.tried| == |t.tried|;
    forall i | 0 <= i < |s.tried| ensures s.tried[i] == t.tried[i] {
      assert s.tried[i].action == ActionsOf(s.tried)[i] && t.tried[i].action == ActionsOf(t.tried)[i];
    }
  }

  /** The outcomes of the actions leave only one trace. */
  lemma TraceDetermined(tryActions: seq<Action>, finalActions: seq<Action>, succeeds: nat -> bool, s: Trace, t: Trace)
    requires IsTrace(tryActions, finalActions, s) && Obeys(s, succeeds)
    requires IsTrace(tryActions, finalActions, t) && Obeys(t, succeeds)
    ensures s == t
  {
    SameTried(tryActions, finalActions, succeeds, s, t);
    forall i | 0 <= i < |s.fallback| && i < |t.fallback| ensures s.fallback[i] == t.fallback[i] {
      assert s.fallback[i].action == ActionsOf(s.fallback)[i] && t.fallback[i].action == ActionsOf(t.fallback)[i];
    }
    assert |s.fallback| == |t.fallback|;
  }

  // ---------------------------------------------------------------- the firewall action

  /** The addresses the firewall may drop, in order. */
  function Unsafe(ips: seq<string>, isSafe: string -> bool): seq<string> {
    if ips == [] then []
    else Unsafe(ips[..|ips| - 1], isSafe) + if isSafe(ips[|ips| - 1]) then [] else [ips[|ips| - 1]]
  }

  lemma {:induction false} UnsafeGrows(ips: seq<string>, i: nat, isSafe: string -> bool)
    requires i <= |ips|
    ensures Unsafe(ips[..i], isSafe) <= Unsafe(ips, isSafe)
    decreases |ips|
  {
    if i == |ips| {
      assert ips[..i] == ips;
    } else {
      assert ips[..|ips| - 1][..i] == ips[..i];
      UnsafeGrows(ips[..|ips| - 1], i, isSafe);
    }
  }

  /**
    The loop over a container's addresses: whitelisted ones are skipped, the others are dropped one
    after the other until a firewall change fails. `accepts(k)` is the outcome of the k-th change.
  */
  method Blacklist(ips: seq<string>, isSafe: string -> bool, accepts: nat -> bool)
    returns (ok: bool, changed: seq<string>)
    ensures changed <= Unsafe(ips, isSafe)
    ensures ok <==> ips != [] && changed == Unsafe(ips, isSafe) && forall k :: 0 <= k < |changed| ==> accepts(k)
    ensures !ok && ips != [] ==> changed != [] && !accepts(|changed| - 1)
    ensures forall k :: 0 <= k < |changed| - 1 ==> accepts(k)
  {
    changed := [];
    if ips == [] {
      return false, changed;
    }
    for i := 0 to |ips|
      invariant changed == Unsafe(ips[..i], isSafe)
      invariant forall k :: 0 <= k < |changed| ==> accepts(k)
    {
      assert ips[..i + 1][..i] == ips[..i];
      if isSafe(ips[i]) {
        continue;
      }
      changed := changed + [ips[i]];
      if !accepts(|changed| - 1) {
        UnsafeGrows(ips, i + 1, isSafe);
        return false, changed;
      }
    }
    assert ips[..|ips|] == ips;
    ok := true;
  }

  lemma UnsafeAlone(ip: string, isSafe: string -> bool)
    ensures Unsafe([ip], isSafe) == if isSafe(ip) then [] else [ip]
  {
    assert [ip][..0] == [];
  }

  /** Addresses are dropped in the order in which the container lists them. */
  lemma {:induction false} UnsafeParts(a: seq<string>, b: seq<string>, isSafe: string -> bool)
    ensures Unsafe(a + b, isSafe) == Unsafe(a, isSafe) + Unsafe(b, isSafe)
  {
    if b == [] {
      assert a + b == a;
    } else {
      var n := |b| - 1;
      UnsafeParts(a, b[..n], isSafe);
      assert (a + b)[..|a + b| - 1] == a + b[..n];
      assert Unsafe(a + b, isSafe) == Unsafe(a + b[..n], isSafe) + if isSafe(b[n]) then [] else [b[n]];
    }
  }

  /** Every address dropped is one the container has and the whitelist does not cover. */
  lemma {:induction false} OnlyUnsafeDropped(ips: seq<string>, isSafe: string -> bool)
    ensures forall ip :: ip in Unsafe(ips, isSafe) <==> ip in ips && !isSafe(ip)
  {
    if ips != [] {
      var n := |ips| - 1;
      OnlyUnsafeDropped(ips[..n], isSafe);
      assert ips == ips[..n] + [ips[n]];
    }
  }
}
