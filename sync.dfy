/**
 * `sync`: one pass over the claimed deployments, in list order. The first
 * deployment whose name carries the provider prefix is merged with the
 * desired deployment; every other deployment with replicas is scaled to
 * zero; the desired deployment is created when no deployment carries the
 * prefix; and the status update receives the active deployment.
 *
 * The pass is specified by the left fold `Run` of `Step` over the list and
 * by `SyncOutcome`; the method `Sync` is the loop of the source, proved equal
 * to that specification; the lemmas state what the pass promises.
 */
module Converge {
  import opened Wrappers
  import opened Objects
  import opened Descriptor
  import opened Ensure

  /**
   * What a pass depends on besides the deployment list: the load balancer,
   * the desired deployment, whether the deep copy of a deployment fails,
   * and whether the cluster rejects a call.
   */
  datatype Context = Context(lb: LoadBalancer, desired: Deployment, copyFails: Deployment -> bool, fails: Call -> bool)

  /** The loop state of `sync`: the `updated` flag, `activeDeploy`, the calls so far, and the failure that ended the loop early. */
  datatype Pass = Pass(updated: bool, active: Deployment, calls: seq<Call>, halt: Option<Failure>)

  function Start(ctx: Context): Pass {
    Pass(false, ctx.desired, [], None)
  }

  function ScaledToZero(d: Deployment): Deployment {
    d.(replicas := 0)
  }

  /** The loop takes the merge branch for `dp`: prefixed name and no target chosen yet. */
  predicate TakesTarget(ctx: Context, s: Pass, dp: Deployment) {
    IsTargetName(ctx.lb, dp.name) && !s.updated
  }

  /** One iteration of the loop of `sync`. */
  function Step(ctx: Context, s: Pass, dp: Deployment): Pass {
    if s.halt.Some? then s
    else if !TakesTarget(ctx, s, dp) then
      if dp.replicas == 0 then s
      else if ctx.copyFails(dp) then s.(halt := Some(Crash(NilDeepCopy)))
      else s.(calls := s.calls + [UpdateDeployment(ctx.lb.namespace, ScaledToZero(dp))])
    else
      match Ensured(ctx.desired, dp, ctx.copyFails(dp))
      case CopyFailed => s.(updated := true)
      case Crashed(p) => s.(updated := true, halt := Some(Crash(p)))
      case Merged(m, changed) =>
        if !changed then s.(updated := true, active := m)
        else
          var call := UpdateDeployment(ctx.lb.namespace, m);
          if ctx.fails(call) then s.(updated := true, calls := s.calls + [call], halt := Some(Rejected(call)))
          else s.(updated := true, active := m, calls := s.calls + [call])
  }

  function Run(ctx: Context, s: Pass, dps: seq<Deployment>): Pass
    decreases |dps|
  {
    if dps == [] then s else Run(ctx, Step(ctx, s, dps[0]), dps[1..])
  }

  /** The final `syncStatus` call on the active deployment, whose error the pass returns. */
  function StatusOutcome(ctx: Context, calls: seq<Call>, active: Deployment): Outcome {
    var status := SyncStatus(ctx.lb, active);
    Outcome(calls + [status], if ctx.fails(status) then Some(Rejected(status)) else None)
  }

  /** The calls `sync` issues and the error it returns. */
  function SyncOutcome(ctx: Context, dps: seq<Deployment>): Outcome {
    var p := Run(ctx, Start(ctx), dps);
    if p.halt.Some? then Outcome(p.calls, p.halt)
    else if p.updated then StatusOutcome(ctx, p.calls, p.active)
    else
      var create := CreateDeployment(ctx.lb.namespace, ctx.desired);
      if ctx.fails(create) then Outcome(p.calls + [create], Some(Rejected(create)))
      else StatusOutcome(ctx, p.calls + [create], p.active)
  }

  /** `sync` as the source writes it: a loop with the `updated` flag and `activeDeploy`. */
  method Sync(lb: LoadBalancer, dps: seq<Deployment>, image: string, replicas: Int32, suffix: string,
              copyFails: Deployment -> bool, fails: Call -> bool)
    returns (out: Outcome)
    ensures out == SyncOutcome(Context(lb, GenerateDeployment(lb, image, replicas, suffix), copyFails, fails), dps)
  {
    var desired := GenerateDeployment(lb, image, replicas, suffix);
    ghost var ctx := Context(lb, desired, copyFails, fails);

    var updated := false;
    var active := desired;
    var calls: seq<Call> := [];
    for i := 0 to |dps|
      invariant Run(ctx, Pass(updated, active, calls, None), dps[i..]) == Run(ctx, Start(ctx), dps)
    {
      var dp := dps[i];
      ghost var before := Pass(updated, active, calls, None);
      RunUnfold(ctx, before, dps, i);
      if !IsTargetName(lb, dp.name) || updated {
        if dp.replicas != 0 {
          // the copy is nil when the deep copy fails, and setting its replicas panics
          if copyFails(dp) {
            RunHalted(ctx, Step(ctx, before, dp), dps[i + 1..]);
            return Outcome(calls, Some(Crash(NilDeepCopy)));
          }
          calls := calls + [UpdateDeployment(lb.namespace, ScaledToZero(dp))];
        }
      } else {
        updated := true;
        var r := EnsureDeployment(desired, dp, copyFails(dp));
        match r
        case CopyFailed =>
        case Crashed(p) =>
          RunHalted(ctx, Step(ctx, before, dp), dps[i + 1..]);
          return Outcome(calls, Some(Crash(p)));
        case Merged(m, changed) =>
          if changed {
            var call := UpdateDeployment(lb.namespace, m);
            calls := calls + [call];
            if fails(call) {
              RunHalted(ctx, Step(ctx, before, dp), dps[i + 1..]);
              return Outcome(calls, Some(Rejected(call)));
            }
          }
          active := m;
      }
    }
    assert dps[|dps|..] == [];

    if !updated {
      var create := CreateDeployment(lb.namespace, desired);
      calls := calls + [create];
      if fails(create) {
        return Outcome(calls, Some(Rejected(create)));
      }
    }
    var status := SyncStatus(lb, active);
    out := Outcome(calls + [status], if fails(status) then Some(Rejected(status)) else None);
  }

  lemma {:induction false} RunUnfold(ctx: Context, s: Pass, dps: seq<Deployment>, i: nat)
    requires i < |dps|
    ensures Run(ctx, s, dps[i..]) == Run(ctx, Step(ctx, s, dps[i]), dps[i + 1..])
  {
    assert dps[i..][1..] == dps[i + 1..];
  }

  /** Once the loop has returned early, the remaining deployments are not visited. */
  lemma {:induction false} RunHalted(ctx: Context, s: Pass, dps: seq<Deployment>)
    requires s.halt.Some?
    ensures Run(ctx, s, dps) == s
    decreases |dps|
  {
    if dps != [] {
      RunHalted(ctx, Step(ctx, s, dps[0]), dps[1..]);
    }
  }

  lemma {:induction false} RunAppend(ctx: Context, s: Pass, a: seq<Deployment>, b: seq<Deployment>)
    ensures Run(ctx, s, a + b) == Run(ctx, Run(ctx, s, a), b)
    decreases |a|
  {
    if a == [] {
      assert a + b == b;
    } else {
      assert (a + b)[0] == a[0];
      assert (a + b)[1..] == a[1..] + b;
      RunAppend(ctx, Step(ctx, s, a[0]), a[1..], b);
    }
  }

  /** The index of the first deployment whose name carries the provider prefix, or `|dps|` if there is none. */
  function FirstTarget(lb: LoadBalancer, dps: seq<Deployment>): (t: nat)
    ensures t <= |dps|
    ensures forall j :: 0 <= j < t ==> !IsTargetName(lb, dps[j].name)
    ensures t < |dps| ==> IsTargetName(lb, dps[t].name)
    decreases |dps|
  {
    if dps == [] then 0
    else if IsTargetName(lb, dps[0].name) then 0
    else 1 + FirstTarget(lb, dps[1..])
  }

  predicate NoTargetName(lb: LoadBalancer, dps: seq<Deployment>) {
    forall d :: d in dps ==> !IsTargetName(lb, d.name)
  }

  lemma {:induction false} NoTargetBeforeFirst(lb: LoadBalancer, dps: seq<Deployment>)
    ensures NoTargetName(lb, dps[..FirstTarget(lb, dps)])
    ensures FirstTarget(lb, dps) == |dps| <==> NoTargetName(lb, dps)
  {
    var t := FirstTarget(lb, dps);
    forall d | d in dps[..t] ensures !IsTargetName(lb, d.name) {
      var j :| 0 <= j < t && dps[..t][j] == d;
      assert dps[j] == d;
    }
    if t == |dps| {
      assert dps[..t] == dps;
    } else {
      assert dps[t] in dps;
    }
  }

  /** Every deployment with replicas, scaled to zero, in list order: the scale-down calls of a pass. */
  function ScaleDowns(namespace: string, ds: seq<Deployment>): seq<Call>
    decreases |ds|
  {
    if ds == [] then [] else ScaleDownOf(namespace, ds[0]) + ScaleDowns(namespace, ds[1..])
  }

  function ScaleDownOf(namespace: string, d: Deployment): seq<Call> {
    if d.replicas == 0 then [] else [UpdateDeployment(namespace, ScaledToZero(d))]
  }

  /**
   * Each scale-down call is an update of a listed deployment with replicas,
   * identical to it except for zero replicas; every listed deployment with
   * replicas gets one; one with zero replicas gets none.
   */
  lemma {:induction false} ScaleDownsExactly(namespace: string, ds: seq<Deployment>)
    ensures forall c :: c in ScaleDowns(namespace, ds) ==>
      c.UpdateDeployment? && c.namespace == namespace && c.deployment.replicas == 0 &&
      exists d :: d in ds && d.replicas != 0 && c.deployment == ScaledToZero(d)
    ensures forall d :: d in ds && d.replicas != 0 ==> UpdateDeployment(namespace, ScaledToZero(d)) in ScaleDowns(namespace, ds)
    ensures (forall d :: d in ds ==> d.replicas == 0) ==> ScaleDowns(namespace, ds) == []
    decreases |ds|
  {
    if ds != [] {
      ScaleDownsExactly(namespace, ds[1..]);
      assert forall d :: d in ds[1..] ==> d in ds;
      assert forall d :: d in ds ==> d == ds[0] || d in ds[1..];
    }
  }

  predicate SurplusCopyable(ctx: Context, ds: seq<Deployment>) {
    forall d :: d in ds && d.replicas != 0 ==> !ctx.copyFails(d)
  }

  /**
   * Where no target can be chosen (one already was, or no name carries the
   * prefix), the loop only scales down; a rejected scale-down is ignored.
   */
  lemma {:induction false} RunSurplus(ctx: Context, s: Pass, ds: seq<Deployment>)
    requires s.halt.None?
    requires s.updated || NoTargetName(ctx.lb, ds)
    requires SurplusCopyable(ctx, ds)
    ensures Run(ctx, s, ds) == s.(calls := s.calls + ScaleDowns(ctx.lb.namespace, ds))
    decreases |ds|
  {
    if ds == [] {
      assert s.calls + [] == s.calls;
    } else {
      var ns := ctx.lb.namespace;
      assert ds[0] in ds;
      assert forall d :: d in ds[1..] ==> d in ds;
      StepSurplus(ctx, s, ds[0]);
      RunSurplus(ctx, Step(ctx, s, ds[0]), ds[1..]);
      assert s.calls + ScaleDownOf(ns, ds[0]) + ScaleDowns(ns, ds[1..]) == s.calls + ScaleDowns(ns, ds);
    }
  }

  lemma {:induction false} StepSurplus(ctx: Context, s: Pass, d: Deployment)
    requires s.halt.None? && !TakesTarget(ctx, s, d)
    requires d.replicas != 0 ==> !ctx.copyFails(d)
    ensures Step(ctx, s, d) == s.(calls := s.calls + ScaleDownOf(ctx.lb.namespace, d))
  {
    if d.replicas == 0 {
      assert s.calls + [] == s.calls;
    }
  }

  /** Single target: after the first `i` deployments, `updated` is set exactly when the first prefixed one is among them. */
  lemma {:induction false} UpdatedIffTargetSeen(ctx: Context, dps: seq<Deployment>, i: nat)
    requires i <= |dps|
    requires Run(ctx, Start(ctx), dps[..i]).halt.None?
    ensures Run(ctx, Start(ctx), dps[..i]).updated <==> FirstTarget(ctx.lb, dps) < i
  {
    if i == 0 {
      assert dps[..0] == [];
    } else {
      var p := Run(ctx, Start(ctx), dps[..i - 1]);
      assert dps[..i] == dps[..i - 1] + [dps[i - 1]];
      RunAppend(ctx, Start(ctx), dps[..i - 1], [dps[i - 1]]);
      assert [dps[i - 1]][1..] == [];
      assert Run(ctx, Start(ctx), dps[..i]) == Step(ctx, p, dps[i - 1]);
      assert p.halt.None?;
      UpdatedIffTargetSeen(ctx, dps, i - 1);
    }
  }

  /** Only the first deployment whose name carries the prefix takes the merge branch; every other one is surplus. */
  lemma {:induction false} OnlyFirstTargetIsMerged(ctx: Context, dps: seq<Deployment>, i: nat)
    requires i < |dps|
    requires Run(ctx, Start(ctx), dps[..i]).halt.None?
    ensures TakesTarget(ctx, Run(ctx, Start(ctx), dps[..i]), dps[i]) <==> i == FirstTarget(ctx.lb, dps)
  {
    UpdatedIffTargetSeen(ctx, dps, i);
  }

  /**
   * Without a prefixed deployment (the empty list included), the pass scales
   * down every deployment with replicas and then creates the desired one.
   */
  lemma {:induction false} SyncWithoutTarget(ctx: Context, dps: seq<Deployment>)
    requires NoTargetName(ctx.lb, dps)
    requires SurplusCopyable(ctx, dps)
    ensures var create := CreateDeployment(ctx.lb.namespace, ctx.desired);
      var downs := ScaleDowns(ctx.lb.namespace, dps);
      SyncOutcome(ctx, dps) ==
        if ctx.fails(create) then Outcome(downs + [create], Some(Rejected(create)))
        else StatusOutcome(ctx, downs + [create], ctx.desired)
  {
    RunSurplus(ctx, Start(ctx), dps);
    assert [] + ScaleDowns(ctx.lb.namespace, dps) == ScaleDowns(ctx.lb.namespace, dps);
  }

  /** The calls issued for the target: an update only when `ensureDeployment` reports a change. */
  function TargetCalls(ctx: Context, r: EnsureResult): seq<Call> {
    if r.Merged? && r.changed then [UpdateDeployment(ctx.lb.namespace, r.merged)] else []
  }

  /** The active deployment after the target: the merged copy, or the desired deployment when the copy failed. */
  function ActiveAfter(ctx: Context, r: EnsureResult): Deployment {
    if r.Merged? then r.merged else ctx.desired
  }

  /** The loop up to and including the first prefixed deployment: the scale-downs before it, then its merge step. */
  lemma {:induction false} RunToTarget(ctx: Context, dps: seq<Deployment>)
    requires FirstTarget(ctx.lb, dps) < |dps|
    requires SurplusCopyable(ctx, dps[..FirstTarget(ctx.lb, dps)])
    ensures var t := FirstTarget(ctx.lb, dps);
      Run(ctx, Start(ctx), dps) ==
        Run(ctx, Step(ctx, Start(ctx).(calls := ScaleDowns(ctx.lb.namespace, dps[..t])), dps[t]), dps[t + 1..])
  {
    var t := FirstTarget(ctx.lb, dps);
    var rest := [dps[t]] + dps[t + 1..];
    assert dps == dps[..t] + rest;
    RunAppend(ctx, Start(ctx), dps[..t], rest);
    NoTargetBeforeFirst(ctx.lb, dps);
    RunSurplus(ctx, Start(ctx), dps[..t]);
    assert [] + ScaleDowns(ctx.lb.namespace, dps[..t]) == ScaleDowns(ctx.lb.namespace, dps[..t]);
    assert rest[0] == dps[t] && rest[1..] == dps[t + 1..];
  }

  /** The merge step of the target when it neither panics nor has its update rejected. */
  lemma {:induction false} StepTarget(ctx: Context, s: Pass, d: Deployment)
    requires s.halt.None? && TakesTarget(ctx, s, d) && s.active == ctx.desired
    requires var r := Ensured(ctx.desired, d, ctx.copyFails(d));
      !r.Crashed? && (r.Merged? && r.changed ==> !ctx.fails(UpdateDeployment(ctx.lb.namespace, r.merged)))
    ensures var r := Ensured(ctx.desired, d, ctx.copyFails(d));
      Step(ctx, s, d) == s.(updated := true, active := ActiveAfter(ctx, r), calls := s.calls + TargetCalls(ctx, r))
  {
    var r := Ensured(ctx.desired, d, ctx.copyFails(d));
    if !(r.Merged? && r.changed) {
      assert s.calls + TargetCalls(ctx, r) == s.calls;
    }
  }

  /**
   * With a prefixed deployment at index t: every deployment before and after
   * it with replicas is scaled to zero, the target is updated only when
   * changed, nothing is created, and the status update receives the merged
   * target (or the desired deployment when the target's copy failed).
   */
  lemma {:induction false} SyncWithTarget(ctx: Context, dps: seq<Deployment>)
    requires FirstTarget(ctx.lb, dps) < |dps|
    requires SurplusCopyable(ctx, dps[..FirstTarget(ctx.lb, dps)])
    requires SurplusCopyable(ctx, dps[FirstTarget(ctx.lb, dps) + 1..])
    requires var t := FirstTarget(ctx.lb, dps);
      var r := Ensured(ctx.desired, dps[t], ctx.copyFails(dps[t]));
      !r.Crashed? && (r.Merged? && r.changed ==> !ctx.fails(UpdateDeployment(ctx.lb.namespace, r.merged)))
    ensures var t := FirstTarget(ctx.lb, dps);
      var r := Ensured(ctx.desired, dps[t], ctx.copyFails(dps[t]));
      SyncOutcome(ctx, dps) ==
        StatusOutcome(ctx, ScaleDowns(ctx.lb.namespace, dps[..t]) + TargetCalls(ctx, r) + ScaleDowns(ctx.lb.namespace, dps[t + 1..]),
                      ActiveAfter(ctx, r))
  {
    var t := FirstTarget(ctx.lb, dps);
    RunToTarget(ctx, dps);
    var p1 := Start(ctx).(calls := ScaleDowns(ctx.lb.namespace, dps[..t]));
    StepTarget(ctx, p1, dps[t]);
    RunSurplus(ctx, Step(ctx, p1, dps[t]), dps[t + 1..]);
  }

  /** A rejected update of the target ends the pass at once with that error: nothing later is scaled down or created. */
  lemma {:induction false} SyncTargetUpdateRejected(ctx: Context, dps: seq<Deployment>)
    requires FirstTarget(ctx.lb, dps) < |dps|
    requires SurplusCopyable(ctx, dps[..FirstTarget(ctx.lb, dps)])
    requires var t := FirstTarget(ctx.lb, dps);
      var r := Ensured(ctx.desired, dps[t], ctx.copyFails(dps[t]));
      r.Merged? && r.changed && ctx.fails(UpdateDeployment(ctx.lb.namespace, r.merged))
    ensures var t := FirstTarget(ctx.lb, dps);
      var update := UpdateDeployment(ctx.lb.namespace, Ensured(ctx.desired, dps[t], ctx.copyFails(dps[t])).merged);
      SyncOutcome(ctx, dps) == Outcome(ScaleDowns(ctx.lb.namespace, dps[..t]) + [update], Some(Rejected(update)))
  {
    var t := FirstTarget(ctx.lb, dps);
    RunToTarget(ctx, dps);
    var p1 := Start(ctx).(calls := ScaleDowns(ctx.lb.namespace, dps[..t]));
    RunHalted(ctx, Step(ctx, p1, dps[t]), dps[t + 1..]);
  }

  /** A panic while merging the target (no container 0, no affinity) ends the pass with nothing after the earlier scale-downs. */
  lemma {:induction false} SyncTargetCrashed(ctx: Context, dps: seq<Deployment>)
    requires FirstTarget(ctx.lb, dps) < |dps|
    requires SurplusCopyable(ctx, dps[..FirstTarget(ctx.lb, dps)])
    requires var t := FirstTarget(ctx.lb, dps);
      Ensured(ctx.desired, dps[t], ctx.copyFails(dps[t])).Crashed?
    ensures var t := FirstTarget(ctx.lb, dps);
      var p := Ensured(ctx.desired, dps[t], ctx.copyFails(dps[t])).panic;
      SyncOutcome(ctx, dps) == Outcome(ScaleDowns(ctx.lb.namespace, dps[..t]), Some(Crash(p)))
  {
    var t := FirstTarget(ctx.lb, dps);
    RunToTarget(ctx, dps);
    var p1 := Start(ctx).(calls := ScaleDowns(ctx.lb.namespace, dps[..t]));
    RunHalted(ctx, Step(ctx, p1, dps[t]), dps[t + 1..]);
  }

  /**
   * A failed deep copy of a deployment to be scaled down leaves a nil copy
   * whose replicas are then set: the pass panics there, after the calls
   * issued so far, with no create and no status update.
   */
  lemma {:induction false} SyncScaleDownCopyFails(ctx: Context, dps: seq<Deployment>, i: nat)
    requires i < |dps| && i != FirstTarget(ctx.lb, dps)
    requires Run(ctx, Start(ctx), dps[..i]).halt.None?
    requires dps[i].replicas != 0 && ctx.copyFails(dps[i])
    ensures SyncOutcome(ctx, dps) == Outcome(Run(ctx, Start(ctx), dps[..i]).calls, Some(Crash(NilDeepCopy)))
  {
    var p := Run(ctx, Start(ctx), dps[..i]);
    OnlyFirstTargetIsMerged(ctx, dps, i);
    assert dps == dps[..i] + dps[i..];
    RunAppend(ctx, Start(ctx), dps[..i], dps[i..]);
    RunUnfold(ctx, p, dps, i);
    RunHalted(ctx, Step(ctx, p, dps[i]), dps[i + 1..]);
  }

  predicate OnlyUpdates(calls: seq<Call>) {
    forall c :: c in calls ==> c.UpdateDeployment?
  }

  lemma {:induction false} RunIssuesOnlyUpdates(ctx: Context, s: Pass, dps: seq<Deployment>)
    requires OnlyUpdates(s.calls)
    ensures OnlyUpdates(Run(ctx, s, dps).calls)
    decreases |dps|
  {
    if dps != [] {
      RunIssuesOnlyUpdates(ctx, Step(ctx, s, dps[0]), dps[1..]);
    }
  }

  /** A create is issued only when no deployment's name carries the prefix. */
  lemma {:induction false} CreateOnlyWithoutTarget(ctx: Context, dps: seq<Deployment>)
    ensures (exists c :: c in SyncOutcome(ctx, dps).calls && c.CreateDeployment?) ==> NoTargetName(ctx.lb, dps)
  {
    var p := Run(ctx, Start(ctx), dps);
    RunIssuesOnlyUpdates(ctx, Start(ctx), dps);
    if p.halt.None? {
      assert dps[..|dps|] == dps;
      UpdatedIffTargetSeen(ctx, dps, |dps|);
      NoTargetBeforeFirst(ctx.lb, dps);
    }
  }

  /**
   * Create iff no target: when no scale-down panics, the desired deployment
   * is created exactly when no listed name carries the prefix.
   */
  lemma {:induction false} CreateIffNoTarget(ctx: Context, dps: seq<Deployment>)
    requires SurplusCopyable(ctx, dps)
    ensures (exists c :: c in SyncOutcome(ctx, dps).calls && c.CreateDeployment?) <==> NoTargetName(ctx.lb, dps)
  {
    CreateOnlyWithoutTarget(ctx, dps);
    if NoTargetName(ctx.lb, dps) {
      SyncWithoutTarget(ctx, dps);
      var create := CreateDeployment(ctx.lb.namespace, ctx.desired);
      var downs := ScaleDowns(ctx.lb.namespace, dps);
      assert (downs + [create])[|downs|] == create;
      assert create in SyncOutcome(ctx, dps).calls by {
        if !ctx.fails(create) {
          assert SyncOutcome(ctx, dps).calls == downs + [create] + [SyncStatus(ctx.lb, ctx.desired)];
          assert SyncOutcome(ctx, dps).calls[|downs|] == create;
        }
      }
    }
  }

  function ZeroAll(ds: seq<Deployment>): (z: seq<Deployment>)
    ensures |z| == |ds|
    ensures forall j :: 0 <= j < |ds| ==> z[j] == ScaledToZero(ds[j])
    decreases |ds|
  {
    if ds == [] then [] else [ScaledToZero(ds[0])] + ZeroAll(ds[1..])
  }

  lemma {:induction false} ZeroAllNames(lb: LoadBalancer, ds: seq<Deployment>)
    requires NoTargetName(lb, ds)
    ensures NoTargetName(lb, ZeroAll(ds))
    ensures forall d :: d in ZeroAll(ds) ==> d.replicas == 0
  {
    forall d | d in ZeroAll(ds) ensures !IsTargetName(lb, d.name) && d.replicas == 0 {
      var j :| 0 <= j < |ds| && ZeroAll(ds)[j] == d;
      assert ds[j] in ds;
    }
  }

  lemma {:induction false} FirstTargetAt(lb: LoadBalancer, a: seq<Deployment>, x: Deployment, b: seq<Deployment>)
    requires NoTargetName(lb, a) && IsTargetName(lb, x.name)
    ensures FirstTarget(lb, a + [x] + b) == |a|
  {
    var dps := a + [x] + b;
    assert dps[|a|] == x;
    forall j | 0 <= j < |a| ensures !IsTargetName(lb, dps[j].name) {
      assert dps[j] == a[j] && a[j] in a;
    }
  }

  /**
   * A second pass after a successful first one has nothing to do. The
   * claimed list holds the merged target `m` of the first pass among
   * deployments at zero replicas, in any order that lists no prefixed name
   * before `m`; the next desired deployment differs from the first only in
   * its name (a fresh suffix). The pass finds `m` again and issues no update
   * and no create, only the status update of `m`.
   */
  lemma {:induction false} SecondPassQuiet(ctx: Context, next: Context, x: Deployment, a: seq<Deployment>, b: seq<Deployment>)
    requires IsTargetName(ctx.lb, x.name)
    requires Ensured(ctx.desired, x, ctx.copyFails(x)).Merged?
    requires next.lb == ctx.lb && next.desired == ctx.desired.(name := next.desired.name)
    requires !next.copyFails(Ensured(ctx.desired, x, ctx.copyFails(x)).merged)
    requires NoTargetName(ctx.lb, a)
    ensures var m := Ensured(ctx.desired, x, ctx.copyFails(x)).merged;
      var listed := ZeroAll(a) + [m] + ZeroAll(b);
      FirstTarget(ctx.lb, listed) == |a| && SyncOutcome(next, listed) == StatusOutcome(next, [], m)
  {
    var m := Ensured(ctx.desired, x, ctx.copyFails(x)).merged;
    var before, after := ZeroAll(a), ZeroAll(b);
    var listed := before + [m] + after;
    ZeroAllNames(ctx.lb, a);
    assert Untouched(m).name == Untouched(x).name;
    FirstTargetAt(ctx.lb, before, m, after);
    assert listed[..|a|] == before && listed[|a|] == m && listed[|a| + 1..] == after;
    ZeroAllSettled(next, a);
    ZeroAllSettled(next, b);
    MergeIdempotent(ctx.desired, x);
    assert Merge(next.desired, m) == Merge(ctx.desired, m);
    assert Ensured(next.desired, listed[|a|], next.copyFails(listed[|a|])) == Merged(m, false);
    SyncWithTarget(next, listed);
    assert [] + TargetCalls(next, Merged(m, false)) + [] == [];
  }

  /**
   * The order of the claimed list decides the target. If a second prefixed
   * deployment, scaled to zero by the first pass, is listed before the merged
   * target, the next pass takes it as target and scales it back up. Once that
   * update is accepted, it scales the previously merged target down.
   */
  lemma {:induction false} ReorderedSecondPassFlips(ctx: Context, x: Deployment, y: Deployment)
    requires IsTargetName(ctx.lb, x.name) && IsTargetName(ctx.lb, y.name)
    requires x.HasPodFields() && y.HasPodFields() && ctx.desired.HasPodFields()
    requires y.replicas != 0 && ctx.desired.replicas != 0
    requires !ctx.copyFails(ScaledToZero(y))
    ensures var m, z := Merge(ctx.desired, x), ScaledToZero(y);
      var revive := UpdateDeployment(ctx.lb.namespace, Merge(ctx.desired, z));
      && FirstTarget(ctx.lb, [z, m]) == 0
      && revive in SyncOutcome(ctx, [z, m]).calls
      && (!ctx.fails(revive) && !ctx.copyFails(m) ==>
            UpdateDeployment(ctx.lb.namespace, ScaledToZero(m)) in SyncOutcome(ctx, [z, m]).calls)
  {
    var m, z := Merge(ctx.desired, x), ScaledToZero(y);
    var revive := UpdateDeployment(ctx.lb.namespace, Merge(ctx.desired, z));
    assert Ensured(ctx.desired, z, false) == Merged(Merge(ctx.desired, z), true);
    assert [z, m][0] == z && [z, m][1..] == [m] && [m][1..] == [];
    var p1 := Step(ctx, Start(ctx), z);
    assert Run(ctx, Start(ctx), [z, m]) == Run(ctx, Step(ctx, p1, m), []);
    if ctx.fails(revive) {
      assert p1.calls == [revive];
    } else {
      assert p1.calls == [revive] && p1.updated;
      if !ctx.copyFails(m) {
        assert Step(ctx, p1, m).calls == [revive, UpdateDeployment(ctx.lb.namespace, ScaledToZero(m))];
      }
    }
    var calls := SyncOutcome(ctx, [z, m]).calls;
    assert calls[0] == revive;
    if !ctx.fails(revive) && !ctx.copyFails(m) {
      assert calls[1] == UpdateDeployment(ctx.lb.namespace, ScaledToZero(m));
    }
  }

  /** A list scaled to zero yields no scale-down call, so no copy is attempted. */
  lemma {:induction false} ZeroAllSettled(ctx: Context, ds: seq<Deployment>)
    ensures ScaleDowns(ctx.lb.namespace, ZeroAll(ds)) == []
    ensures SurplusCopyable(ctx, ZeroAll(ds))
  {
    var z := ZeroAll(ds);
    forall d | d in z ensures d.replicas == 0 {
      var j :| 0 <= j < |z| && z[j] == d;
    }
    ScaleDownsExactly(ctx.lb.namespace, z);
  }

  /**
   * The deployment a creating pass left behind is adopted by the next pass,
   * although that pass generates a different name suffix. The claimed list
   * holds the created deployment, as stored in the load balancer's namespace,
   * among the other deployments that pass scaled to zero, in any order. It
   * is the target, and it is already converged: only the status update is issued.
   */
  lemma {:induction false} NextPassAdoptsCreated(lb: LoadBalancer, image: string, replicas: Int32, suffix: string, nextSuffix: string,
                                                 a: seq<Deployment>, b: seq<Deployment>,
                                                 copyFails: Deployment -> bool, fails: Call -> bool)
    requires NoTargetName(lb, a)
    requires !copyFails(GenerateDeployment(lb, image, replicas, suffix).(namespace := lb.namespace))
    ensures var stored := GenerateDeployment(lb, image, replicas, suffix).(namespace := lb.namespace);
      var ctx := Context(lb, GenerateDeployment(lb, image, replicas, nextSuffix), copyFails, fails);
      var listed := ZeroAll(a) + [stored] + ZeroAll(b);
      FirstTarget(lb, listed) == |a| && SyncOutcome(ctx, listed) == StatusOutcome(ctx, [], stored)
  {
    var stored := GenerateDeployment(lb, image, replicas, suffix).(namespace := lb.namespace);
    var next := GenerateDeployment(lb, image, replicas, nextSuffix);
    var ctx := Context(lb, next, copyFails, fails);
    var before, after := ZeroAll(a), ZeroAll(b);
    var listed := before + [stored] + after;
    GeneratedIsSelfRecognising(lb, image, replicas, suffix);
    GeneratedIsSelfRecognising(lb, image, replicas, nextSuffix);
    ZeroAllNames(lb, a);
    FirstTargetAt(lb, before, stored, after);
    assert listed[..|a|] == before && listed[|a|] == stored && listed[|a| + 1..] == after;
    ZeroAllSettled(ctx, a);
    ZeroAllSettled(ctx, b);
    var m := Merge(next, stored);
    assert m.labels == stored.labels;
    UntouchedDetermines(m, stored);
    assert Ensured(next, listed[|a|], copyFails(listed[|a|])) == Merged(stored, false);
    SyncWithTarget(ctx, listed);
    assert [] + TargetCalls(ctx, Merged(stored, false)) + [] == [];
  }
}
