/** What makes the controller's operations fail: every failure has a cause, and without a cause
    they succeed and do all they are meant to. */
module Failures {
  import opened Prefixes
  import opened Forest
  import opened GoIpam
  import opened Config
  import opened Chains
  import opened Patches
  import opened Repair
  import opened Release
  import opened Rebuild
  import opened RebuildTheorems
  import opened OneRebuild
  import opened InjectionManagement
  import opened InjectionTheorems
  import opened AskedPaths
  import opened System
  import opened SystemInvariant
  import opened SystemTheorems
  import opened Operations

  // ----- Which steps fail, and why -----

  /** Something was not written, or not released. */
  predicate StepFailed(step: Step) {
    step.RepairPartly? || (step.ReleaseConfig? && !step.ok)
  }

  ghost predicate SomethingFailed(steps: seq<Step>) {
    exists i :: 0 <= i < |steps| && StepFailed(steps[i])
  }

  /** The API server refuses the removal of a finalizer that is there. */
  ghost predicate RemovalRefused(s: State, o: Owner, refused: set<Owner>)
    requires HasConfig(s, o)
  {
    ConfigOf(s, o).finalizer && o in refused
  }

  /** It refuses a ClusterConfig that the repair of the cluster has to create or to update. */
  ghost predicate RepairRefused(s: State, cl: string, refused: set<Owner>) {
    cl in s.clusters && exists r :: Owner(cl, r) in refused && NeedsRepair(s.clusters[cl], ConfigsOf(s, cl), r)
  }

  predicate NeedsRepair(applied: AppliedRules, ccs: ClusterConfigs, r: RuleId) {
    NeedsCreate(applied, ccs, r) || NeedsUpdate(applied, ccs, r)
  }

  /** A repair is partial exactly if something it has to write is refused.  A release fails if the
      removal of the finalizer is refused, and otherwise only if the library makes it. */
  ghost predicate Caused(s: State, step: Step, refused: set<Owner>) {
    match step
    case ReleaseConfig(o, ok) =>
      && HasConfig(s, o) && (RemovalRefused(s, o, refused) ==> !ok)
      && (!ok ==> RemovalRefused(s, o, refused) || MayFail(s.ipam, ConfigOf(s, o).patches))
    case RepairCluster(cl) => !RepairRefused(s, cl, refused)
    case RepairPartly(cl) => RepairRefused(s, cl, refused)
    case _ => true
  }

  /** `refused` names the ClusterConfigs that the API server does not let change. */
  ghost predicate Explained(states: seq<State>, steps: seq<Step>, refused: set<Owner>) {
    |states| == |steps| + 1 && forall i | 0 <= i < |steps| :: Caused(states[i], steps[i], refused)
  }

  /** The operation reports an error exactly if one of its steps has failed, and each of these has a
      cause. */
  ghost predicate Accounted(states: seq<State>, steps: seq<Step>, refused: set<Owner>, failed: bool) {
    Explained(states, steps, refused) && (failed <==> SomethingFailed(steps))
  }

  lemma NothingFailedYet(s: State, refused: set<Owner>)
    ensures Accounted([s], [], refused, false)
  {
  }

  lemma AccountOneMore(states: seq<State>, steps: seq<Step>, refused: set<Owner>, failed: bool, was: State, step: Step,
                       t: State)
    requires Accounted(states, steps, refused, failed) && states[|steps|] == was && Caused(was, step, refused)
    ensures Accounted(states + [t], steps + [step], refused, failed || StepFailed(step))
  {
    var steps' := steps + [step];
    assert steps'[|steps|] == step;
    assert forall i | 0 <= i < |steps| :: steps'[i] == steps[i];
  }

  lemma AccountOn(states: seq<State>, steps: seq<Step>, more: seq<State>, moreSteps: seq<Step>, refused: set<Owner>,
                  failed: bool, later: bool)
    requires Accounted(states, steps, refused, failed) && Accounted(more, moreSteps, refused, later)
    requires states[|steps|] == more[0]
    ensures Accounted(states + more[1..], steps + moreSteps, refused, failed || later)
  {
    var all := steps + moreSteps;
    assert forall i | 0 <= i < |steps| :: all[i] == steps[i];
    assert forall i | 0 <= i < |moreSteps| :: all[|steps| + i] == moreSteps[i];
    forall i | 0 <= i < |all|
      ensures Caused((states + more[1..])[i], all[i], refused)
    {
      if i >= |steps| {
        assert (states + more[1..])[i] == more[i - |steps|];
      }
    }
  }

  lemma OneMoved<T>(all: set<T>, todo: set<T>, x: T)
    requires x in todo && todo <= all
    ensures all - (todo - {x}) == all - todo + {x}
  {
  }

  // ----- Repairs -----

  /** A repair changes exactly the ClusterConfigs that need it. */
  lemma {:induction false} ChangedIffNeeded(applied: AppliedRules, ccs: ClusterConfigs, ins: Instruction, r: RuleId)
    requires CheckSpec(applied, ccs, ins)
    ensures ConfigIn(Apply(ccs, ins), r) != ConfigIn(ccs, r) <==> NeedsRepair(applied, ccs, r)
  {
    if NeedsUpdate(applied, ccs, r) {
      var missing := MissingOf(applied, ccs, r);
      var order :| Enumerates(order, missing.Keys)
        && ins.updates[r] == ClusterConfig(SortPatches(ccs[r].patches + Listing(order, missing)),
                                           ccs[r].finalizer || !ccs[r].deleting, ccs[r].foreign, ccs[r].deleting);
      if missing != map[] {
        var p :| p in missing;
        assert p in order;
        assert |ins.updates[r].patches| > |ccs[r].patches|;
      }
    }
  }

  /** The rules of the cluster whose ClusterConfigs are refused. */
  function RefusedRules(cl: string, refused: set<Owner>): (rules: set<RuleId>)
    ensures forall r :: r in rules <==> Owner(cl, r) in refused
  {
    set o | o in refused && o.cluster == cl :: o.rule
  }

  lemma CompleteIffNotRefused(s: State, cl: string, ins: Instruction, refused: set<Owner>)
    requires cl in s.clusters && CheckSpec(s.clusters[cl], ConfigsOf(s, cl), ins)
    ensures var ccs, after := ConfigsOf(s, cl), Apply(ConfigsOf(s, cl), ins);
      Written(ccs, after, RefusedRules(cl, refused)) == after <==> !RepairRefused(s, cl, refused)
  {
    var ccs, after := ConfigsOf(s, cl), Apply(ConfigsOf(s, cl), ins);
    var written := Written(ccs, after, RefusedRules(cl, refused));
    forall r
      ensures ConfigIn(after, r) != ConfigIn(ccs, r) <==> NeedsRepair(s.clusters[cl], ccs, r)
    {
      ChangedIffNeeded(s.clusters[cl], ccs, ins, r);
    }
    if !RepairRefused(s, cl, refused) {
      forall r
        ensures ConfigIn(written, r) == ConfigIn(after, r)
      {
      }
      SameConfigs(written, after);
    } else {
      var r :| Owner(cl, r) in refused && NeedsRepair(s.clusters[cl], ccs, r);
      assert ConfigIn(written, r) == ConfigIn(ccs, r);
    }
  }

  // ----- Releases and deletions -----

  /** Each of these owners has its ClusterConfig released or deleted once. */
  ghost predicate HandlesOnce(steps: seq<Step>, owners: set<Owner>) {
    && (forall i | 0 <= i < |steps| :: (steps[i].ReleaseConfig? || steps[i].DeleteConfig?) && steps[i].owner in owners)
    && (forall i, j | 0 <= i < j < |steps| :: steps[i].owner != steps[j].owner)
    && (forall o | o in owners :: exists i :: 0 <= i < |steps| && steps[i].owner == o)
  }

  lemma HandlesOneMore(steps: seq<Step>, owners: set<Owner>, step: Step)
    requires HandlesOnce(steps, owners) && (step.ReleaseConfig? || step.DeleteConfig?) && step.owner !in owners
    ensures HandlesOnce(steps + [step], owners + {step.owner})
  {
    var steps' := steps + [step];
    assert steps'[|steps|] == step;
    assert forall i | 0 <= i < |steps| :: steps'[i] == steps[i];
    forall o | o in owners
      ensures exists i :: 0 <= i < |steps'| && steps'[i].owner == o
    {
      var i :| 0 <= i < |steps| && steps[i].owner == o;
      assert steps'[i].owner == o;
    }
  }

  /** All blocks listed by the ClusterConfigs that are released. */
  ghost function ReleasedBy(s: State, steps: seq<Step>): set<Prefix> {
    if steps == [] then {}
    else
      var last := steps[|steps| - 1];
      ReleasedBy(s, steps[..|steps| - 1])
      + (if last.ReleaseConfig? && HasConfig(s, last.owner) then Listed(ConfigOf(s, last.owner).patches) else {})
  }

  /** The ClusterConfig has a readable list whose registered blocks are leaves. */
  ghost predicate ReleasableConfig(s: State, o: Owner) {
    HasConfig(s, o) && ReadableValues(ConfigOf(s, o).patches) && ListedLeaves(s.ipam, Listed(ConfigOf(s, o).patches))
  }

  ghost predicate AllReleasable(s: State, steps: seq<Step>) {
    forall i | 0 <= i < |steps| && steps[i].ReleaseConfig? :: ReleasableConfig(s, steps[i].owner)
  }

  /** With nothing refused, readable lists whose blocks are leaves are released without an error, and
      exactly their blocks are gone. */
  lemma {:induction false} LeavesAreReleased(conv: Conversion, states: seq<State>, steps: seq<Step>,
                                             owners: set<Owner>, i: nat)
    requires Follows(conv, states, steps) && HandlesOnce(steps, owners) && Explained(states, steps, {})
    requires AllReleasable(states[0], steps) && i <= |steps|
    ensures !SomethingFailed(steps[..i])
    ensures states[i].ipam == states[0].ipam - ReleasedBy(states[0], steps[..i])
    ensures ListedLeaves(states[0].ipam, ReleasedBy(states[0], steps[..i]))
    ensures forall j | i <= j < |steps| :: Find(states[i].ccs, steps[j].owner) == Find(states[0].ccs, steps[j].owner)
  {
    if i == 0 {
      assert states[0].ipam - {} == states[0].ipam;
    } else {
      var n := i - 1;
      LeavesAreReleased(conv, states, steps, owners, n);
      StepOfRun(conv, states, steps, n);
      assert steps[..i][..n] == steps[..n] && steps[..i][n] == steps[n];
      OneMoreListReleased(conv, states[0], states[n], steps[..n], steps[n], states[i]);
      assert steps[..n] + [steps[n]] == steps[..i];
      forall j | i <= j < |steps|
        ensures Find(states[i].ccs, steps[j].owner) == Find(states[n].ccs, steps[j].owner)
      {
        OthersAfterStep(conv, states[n], steps[n], states[i], steps[j].owner);
      }
    }
  }

  lemma {:induction false} OthersAfterStep(conv: Conversion, s: State, step: Step, t: State, o: Owner)
    requires Next(conv, s, step, t) && (step.ReleaseConfig? || step.DeleteConfig?) && o != step.owner
    ensures Find(t.ccs, o) == Find(s.ccs, o)
  {
  }

  lemma {:induction false} OneMoreListReleased(conv: Conversion, s: State, was: State, before: seq<Step>, step: Step,
                                               t: State)
    requires Next(conv, was, step, t) && (step.ReleaseConfig? || step.DeleteConfig?) && Caused(was, step, {})
    requires was.ipam == s.ipam - ReleasedBy(s, before) && ListedLeaves(s.ipam, ReleasedBy(s, before))
    requires step.ReleaseConfig? ==> ReleasableConfig(s, step.owner)
    requires Find(was.ccs, step.owner) == Find(s.ccs, step.owner) && !SomethingFailed(before)
    ensures var steps := before + [step];
      && !SomethingFailed(steps) && t.ipam == s.ipam - ReleasedBy(s, steps)
      && ListedLeaves(s.ipam, ReleasedBy(s, steps))
  {
    var steps, gone := before + [step], ReleasedBy(s, before);
    assert steps[..|before|] == before;
    if step.ReleaseConfig? {
      var patches := ConfigOf(s, step.owner).patches;
      assert ConfigOf(was, step.owner) == ConfigOf(s, step.owner);
      assert ReleasedBy(s, steps) == gone + Listed(patches);
      OneListReleased(s.ipam, gone, patches, was, step, t);
      assert s.ipam - gone - Listed(patches) == s.ipam - (gone + Listed(patches));
    } else {
      assert ReleasedBy(s, steps) == gone;
    }
  }

  lemma {:induction false} OneListReleased(a: Allocator, gone: set<Prefix>, patches: seq<Patch>, was: State, step: Step,
                                           t: State)
    requires step.ReleaseConfig? && Caused(was, step, {}) && ReleaseStep(was, step.owner, step.ok, t)
    requires ConfigOf(was, step.owner).patches == patches && was.ipam == a - gone
    requires ListedLeaves(a, gone) && ListedLeaves(a, Listed(patches)) && ReadableValues(patches)
    ensures step.ok && t.ipam == was.ipam - Listed(patches)
  {
    LeavesStay(a, gone, Listed(patches));
    LeavesCannotFail(was.ipam, patches);
    ReleaseExact(was.ipam, patches, t.ipam);
  }

  lemma LeavesStay(a: Allocator, gone: set<Prefix>, listed: set<Prefix>)
    requires ListedLeaves(a, gone) && ListedLeaves(a, listed)
    ensures ListedLeaves(a - gone, listed)
  {
    forall c | c in listed && c in a - gone
      ensures Releasable(a - gone, c)
    {
      assert Releasable(a, c);
      assert a[c].value in gone ==> Releasable(a, a[c].value);
    }
  }

  // ----- Reconciles -----

  /** The rules that are recorded in the annotation or have a ClusterConfig. */
  function KnownRules(s: State, cl: string): set<RuleId>
    requires cl in s.clusters
  {
    s.clusters[cl].Keys + ConfigsOf(s, cl).Keys
  }

  /** The rule is recorded, and unless it was before, all its paths could be converted. */
  ghost predicate Served(known: set<RuleId>, conv: Conversion, annotation: AppliedRules, rule: Rule) {
    && rule.id in annotation
    && (rule.id in known || forall k, j, p | AskedAt(rule.injections, k, j, p) :: conv(p).Some?)
  }

  ghost predicate AllServed(known: set<RuleId>, conv: Conversion, annotation: AppliedRules, rules: seq<Rule>) {
    forall i | 0 <= i < |rules| :: Served(known, conv, annotation, rules[i])
  }

  /** One rule more: it is served, or it leaves an error or an issue. */
  lemma {:induction false} ServedOrError(ctx: Context, w: Work, rule: Rule, w': Work)
    requires RuleStep(ctx, w, rule, w') && (rule.id in ctx.applied ==> rule.id in w.annotation)
    requires rule.id !in ctx.applied ==> rule.id !in w.annotation
    ensures w'.failed || w'.issues != {} <==>
      w.failed || w.issues != {} || !Served(ctx.applied.Keys, ctx.conv, w'.annotation, rule)
    ensures forall r | r != rule.id :: r in w'.annotation <==> r in w.annotation
  {
    ConvertibleExact(ctx.conv, rule.injections);
    if rule.id in ctx.applied {
    } else if rule.id in w.issues || HasIssue(ctx.conv, AllPaths(rule.injections), InjectedPaths(ctx.applied)) {
      assert rule.id in w'.issues;
    } else {
      GenerateErrors(ctx, w, rule, w');
    }
  }

  lemma {:induction false} GenerateErrors(ctx: Context, w: Work, rule: Rule, w': Work)
    requires GenerateStep(ctx, w, rule, w') && rule.id !in w.annotation
    ensures w'.issues == w.issues && forall r | r != rule.id :: r in w'.annotation <==> r in w.annotation
    ensures w'.failed <==>
      w.failed || rule.id !in w'.annotation || !AllConvertible(ctx.conv, AllPaths(rule.injections))
  {
  }

  lemma {:induction false} RunErrors(ctx: Context, rules: seq<Rule>, ws: seq<Work>)
    requires RulesRun(ctx, rules, ws) && Started(ctx, ws[0]) && NoDuplicates(Ids(rules))
    ensures var w := ws[|rules|];
      w.failed || w.issues != {} <==> !AllServed(ctx.applied.Keys, ctx.conv, w.annotation, rules)
  {
    if rules != [] {
      var n := |rules| - 1;
      LastStep(ctx, rules, ws);
      DistinctInit(rules);
      RunErrors(ctx, rules[..n], ws[..n + 1]);
      RunData(ctx, rules[..n], ws[..n + 1]);
      ServedOrError(ctx, ws[n], rules[n], ws[n + 1]);
      OthersServed(ctx, rules, ws[n].annotation, ws[n + 1].annotation);
    }
  }

  lemma {:induction false} OthersServed(ctx: Context, rules: seq<Rule>, was: AppliedRules, now: AppliedRules)
    requires rules != [] && NoDuplicates(Ids(rules))
    requires forall r | r != rules[|rules| - 1].id :: r in now <==> r in was
    ensures var n := |rules| - 1;
      AllServed(ctx.applied.Keys, ctx.conv, now, rules) <==>
        AllServed(ctx.applied.Keys, ctx.conv, was, rules[..n]) && Served(ctx.applied.Keys, ctx.conv, now, rules[n])
  {
    var n := |rules| - 1;
    forall i | 0 <= i < n
      ensures rules[i].id != rules[n].id && rules[..n][i] == rules[i]
    {
      assert Ids(rules)[i] != Ids(rules)[n];
    }
    assert forall i | 0 <= i < n ::
      Served(ctx.applied.Keys, ctx.conv, now, rules[i]) <==> Served(ctx.applied.Keys, ctx.conv, was, rules[..n][i]);
  }

  /** A reconcile under rules with distinct ids has an error exactly if its ClusterConfigs cannot be
      merged or some rule is not served. */
  lemma {:induction false} ReconcileErrors(s: State, cl: string, rules: seq<Rule>, conv: Conversion, ws: seq<Work>,
                                           res: Option<Managed>, intended: State)
    requires ReconcileWith(s, cl, rules, conv, ws, res, intended) && NoDuplicates(Ids(rules))
    ensures res.None? <==> !Mergeable(s.clusters[cl], ConfigsOf(s, cl))
    ensures ReconcileFailed(ConfigsOf(s, cl), res) <==>
      res.None? || !AllServed(KnownRules(s, cl), conv, intended.clusters[cl], rules)
    ensures !ReconcileFailed(ConfigsOf(s, cl), res) ==>
      CopiesAgree(intended.clusters[cl], ConfigsOf(intended, cl)) && Settled(ConfigsOf(intended, cl))
  {
    match res
    case None =>
    case Some(m) =>
      assert m.merged.Keys == KnownRules(s, cl);
      ManagedErrors(s.ipam, s.clusters[cl], ConfigsOf(s, cl), rules, s.parents, conv, ws, m, intended.ipam);
      if !ResultFailed(ConfigsOf(s, cl), m) {
        CopiesAgreeAfterwards(s.ipam, s.clusters[cl], ConfigsOf(s, cl), rules, s.parents, conv, ws, m, intended.ipam);
      }
  }

  lemma {:induction false} ManagedErrors(a: Allocator, annotation: AppliedRules, ccs: ClusterConfigs, rules: seq<Rule>,
                                         parents: map<string, seq<Prefix>>, conv: Conversion, ws: seq<Work>,
                                         m: Managed, b: Allocator)
    requires ManageSpec(a, annotation, ccs, rules, parents, conv, ws, Some(m), b) && NoDuplicates(Ids(rules))
    ensures ResultFailed(ccs, m) <==> !AllServed(m.merged.Keys, conv, m.work.annotation, rules)
  {
    var ctx := Context(m.merged, parents, conv);
    RunErrors(ctx, rules, ws);
    RunData(ctx, rules, ws);
    NewConfigsCreated(annotation, ccs, m, ctx, rules);
  }

  /** What the error of a reconcile means: there is none exactly if the ClusterConfigs could be merged,
      everything was written, and every rule is recorded and, unless it was before, has only paths
      that could be converted.  Then the two copies name the same rules and paths. */
  ghost predicate ReconcileOutcome(s: State, cl: string, rules: seq<Rule>, conv: Conversion, failed: bool,
                                   intended: State, t: State)
    requires cl in s.clusters
  {
    && (!failed <==> Mergeable(s.clusters[cl], ConfigsOf(s, cl)) && t == intended
                     && cl in t.clusters && AllServed(KnownRules(s, cl), conv, t.clusters[cl], rules))
    && (!failed ==> CopiesAgree(t.clusters[cl], ConfigsOf(t, cl)) && Settled(ConfigsOf(t, cl)))
  }

  lemma {:induction false} OutcomeOfReconcile(s: State, cl: string, rules: seq<Rule>, conv: Conversion, ws: seq<Work>,
                                              res: Option<Managed>, intended: State, failed: bool, t: State)
    requires ReconcileWith(s, cl, rules, conv, ws, res, intended) && NoDuplicates(Ids(rules))
    requires failed <==> ReconcileFailed(ConfigsOf(s, cl), res) || t != intended
    ensures ReconcileOutcome(s, cl, rules, conv, failed, intended, t)
  {
    ReconcileErrors(s, cl, rules, conv, ws, res, intended);
  }

  // ----- Releases, one by one -----

  /** Why a release has failed, or not. */
  ghost predicate ReleaseOutcome(s: State, o: Owner, ok: bool, refused: bool) {
    && HasConfig(s, o) && (ConfigOf(s, o).finalizer && refused ==> !ok)
    && (!ok ==> (ConfigOf(s, o).finalizer && refused) || MayFail(s.ipam, ConfigOf(s, o).patches))
  }

  lemma OneReleaseAccounted(states: seq<State>, steps: seq<Step>, refused: set<Owner>, failed: bool, was: State,
                            o: Owner, ok: bool, t: State)
    requires Accounted(states, steps, refused, failed) && states[|steps|] == was
    requires ReleaseOutcome(was, o, ok, o in refused)
    ensures Accounted(states + [t], steps + [ReleaseConfig(o, ok)], refused, failed || !ok)
  {
    AccountOneMore(states, steps, refused, failed, was, ReleaseConfig(o, ok), t);
  }

  predicate OnlyReleases(steps: seq<Step>) {
    forall i | 0 <= i < |steps| :: steps[i].ReleaseConfig?
  }

  function OwnersOf(cl: string, rules: set<RuleId>): (owners: set<Owner>)
    ensures forall o :: o in owners <==> o.cluster == cl && o.rule in rules
  {
    set r | r in rules :: Owner(cl, r)
  }

  lemma OneOwnerMore(steps: seq<Step>, cl: string, done: set<RuleId>, r: RuleId, step: Step)
    requires HandlesOnce(steps, OwnersOf(cl, done)) && r !in done && step.ReleaseConfig? && step.owner == Owner(cl, r)
    ensures HandlesOnce(steps + [step], OwnersOf(cl, done + {r}))
  {
    HandlesOneMore(steps, OwnersOf(cl, done), step);
    assert OwnersOf(cl, done + {r}) == OwnersOf(cl, done) + {Owner(cl, r)};
  }

  /** The ClusterConfigs of the cluster that are released so far, and those still to do. */
  ghost predicate DeletedSoFar(conv: Conversion, s: State, cl: string, states: seq<State>, steps: seq<Step>,
                               refused: set<Owner>, todo: set<RuleId>, failed: bool, t: State) {
    && Went(conv, AllHeld(ConfigsOf(s, cl)), s, states, steps, t) && Accounted(states, steps, refused, failed)
    && todo <= ConfigsOf(s, cl).Keys && todo <= ConfigsOf(t, cl).Keys
    && OnlyReleases(steps) && HandlesOnce(steps, OwnersOf(cl, ConfigsOf(s, cl).Keys - todo))
    && (AllHeld(ConfigsOf(s, cl)) ==> HeldAmong(ConfigsOf(t, cl), todo))
    && (!failed ==> LeftToOthers(ConfigsOf(t, cl), todo))
  }

  lemma {:induction false} NoneDeletedYet(conv: Conversion, s: State, cl: string, refused: set<Owner>)
    ensures DeletedSoFar(conv, s, cl, [s], [], refused, ConfigsOf(s, cl).Keys, false, s)
  {
    NothingYet(conv, s);
    NothingFailedYet(s, refused);
  }

  lemma {:induction false} OneMoreDeleted(conv: Conversion, s: State, cl: string, states: seq<State>, steps: seq<Step>,
                                          refused: set<Owner>, todo: set<RuleId>, failed: bool, was: State, r: RuleId,
                                          ok: bool, states': seq<State>, steps': seq<Step>, t: State)
    requires DeletedSoFar(conv, s, cl, states, steps, refused, todo, failed, was) && r in todo
    requires ReleaseStep(was, Owner(cl, r), ok, t) && ReleaseOutcome(was, Owner(cl, r), ok, Owner(cl, r) in refused)
    requires OneReleased(ConfigsOf(was, cl), ConfigsOf(t, cl), r, ok)
    requires states' == states + [t] && steps' == steps + [ReleaseConfig(Owner(cl, r), ok)]
    ensures DeletedSoFar(conv, s, cl, states', steps', refused, todo - {r}, failed || !ok, t)
  {
    OneLess(ConfigsOf(was, cl), ConfigsOf(t, cl), r, todo, ok);
    OneOwnerMore(steps, cl, ConfigsOf(s, cl).Keys - todo, r, ReleaseConfig(Owner(cl, r), ok));
    OneMoved(ConfigsOf(s, cl).Keys, todo, r);
    OneMoreRelease(conv, AllHeld(ConfigsOf(s, cl)), s, states, steps, was, Owner(cl, r), ok, t);
    OneReleaseAccounted(states, steps, refused, failed, was, Owner(cl, r), ok, t);
  }

  lemma {:induction false} AllDeleted(conv: Conversion, s: State, cl: string, states: seq<State>, steps: seq<Step>,
                                      refused: set<Owner>, failed: bool, t: State)
    requires DeletedSoFar(conv, s, cl, states, steps, refused, {}, failed, t)
    ensures HandlesOnce(steps, OwnersOf(cl, ConfigsOf(s, cl).Keys))
    ensures refused == {} && ConfigsReleasable(s, cl) ==>
      !failed && t.ipam == s.ipam - ListedBy(ConfigsOf(s, cl))
  {
    assert ConfigsOf(s, cl).Keys - {} == ConfigsOf(s, cl).Keys;
    if refused == {} && ConfigsReleasable(s, cl) {
      AllConfigsReleased(conv, s, cl, states, steps, t, failed);
    }
  }

  ghost predicate ConfigsReleasable(s: State, cl: string) {
    forall r | r in ConfigsOf(s, cl) :: ReleasableConfig(s, Owner(cl, r))
  }

  ghost function ListedBy(ccs: ClusterConfigs): set<Prefix> {
    set r, c | r in ccs && c in Listed(ccs[r].patches) :: c
  }

  ghost predicate ReleasedAt(s: State, steps: seq<Step>, i: int, c: Prefix) {
    && 0 <= i < |steps| && steps[i].ReleaseConfig? && HasConfig(s, steps[i].owner)
    && c in Listed(ConfigOf(s, steps[i].owner).patches)
  }

  lemma {:induction false} ReleasedByAll(s: State, steps: seq<Step>, c: Prefix)
    ensures c in ReleasedBy(s, steps) <==> exists i :: ReleasedAt(s, steps, i, c)
  {
    if steps != [] {
      var n := |steps| - 1;
      ReleasedByAll(s, steps[..n], c);
      assert forall i | 0 <= i < n :: ReleasedAt(s, steps[..n], i, c) <==> ReleasedAt(s, steps, i, c);
      assert c in ReleasedBy(s, steps) <==> c in ReleasedBy(s, steps[..n]) || ReleasedAt(s, steps, n, c);
      assert forall i :: ReleasedAt(s, steps[..n], i, c) ==> i < n;
    }
  }

  lemma {:induction false} AllConfigsReleased(conv: Conversion, s: State, cl: string, states: seq<State>,
                                              steps: seq<Step>, t: State, failed: bool)
    requires Went(conv, AllHeld(ConfigsOf(s, cl)), s, states, steps, t) && Accounted(states, steps, {}, failed)
    requires HandlesOnce(steps, OwnersOf(cl, ConfigsOf(s, cl).Keys)) && OnlyReleases(steps) && ConfigsReleasable(s, cl)
    ensures !failed && t.ipam == s.ipam - ListedBy(ConfigsOf(s, cl))
  {
    LeavesAreReleased(conv, states, steps, OwnersOf(cl, ConfigsOf(s, cl).Keys), |steps|);
    assert steps[..|steps|] == steps;
    forall c
      ensures c in ReleasedBy(s, steps) <==> c in ListedBy(ConfigsOf(s, cl))
    {
      ReleasedByAll(s, steps, c);
      ListedByOwners(s, cl, steps, c);
    }
    assert ReleasedBy(s, steps) == ListedBy(ConfigsOf(s, cl));
  }

  lemma ListedByOwners(s: State, cl: string, steps: seq<Step>, c: Prefix)
    requires HandlesOnce(steps, OwnersOf(cl, ConfigsOf(s, cl).Keys)) && OnlyReleases(steps)
    ensures c in ListedBy(ConfigsOf(s, cl)) <==> exists i :: ReleasedAt(s, steps, i, c)
  {
    if r :| r in ConfigsOf(s, cl) && c in Listed(ConfigsOf(s, cl)[r].patches) {
      var i :| 0 <= i < |steps| && steps[i].owner == Owner(cl, r);
      assert HasConfig(s, steps[i].owner) && ReleasedAt(s, steps, i, c);
    }
  }

  // ----- Orphans -----

  /** Those whose cluster is gone. */
  function OrphansAmong(owners: seq<Owner>, clusters: set<string>): (orphans: set<Owner>)
    ensures forall o :: o in orphans <==> o in owners && o.cluster !in clusters
  {
    set o | o in owners && o.cluster !in clusters
  }

  /** Each of them is handled once: released if it has the finalizer, and otherwise deleted. */
  ghost predicate HandlesOrphans(s: State, steps: seq<Step>, orphans: set<Owner>) {
    && HandlesOnce(steps, orphans)
    && forall i | 0 <= i < |steps| ::
         HasConfig(s, steps[i].owner) && (steps[i].ReleaseConfig? <==> ConfigOf(s, steps[i].owner).finalizer)
  }

  ghost predicate OrphanOutcome(s: State, o: Owner, ok: bool, refused: bool, step: Step) {
    && HasConfig(s, o)
    && if ConfigOf(s, o).finalizer then step == ReleaseConfig(o, ok) && ReleaseOutcome(s, o, ok, refused)
       else ok && step == DeleteConfig(o)
  }

  /** One step for an orphan, none for another ClusterConfig. */
  ghost predicate OrphanHandled(conv: Conversion, s: State, o: Owner, ok: bool, refused: bool, step: Option<Step>,
                                t: State) {
    if o.cluster in s.clusters then ok && step.None? && t == s
    else step.Some? && OrphanDone(conv, s, o, ok, step.value, t) && OrphanOutcome(s, o, ok, refused, step.value)
  }

  /** The first i of them are handled, as far as that is possible. */
  ghost predicate OrphansSoFar(conv: Conversion, s: State, owners: seq<Owner>, i: nat, states: seq<State>,
                               steps: seq<Step>, refused: set<Owner>, remaining: seq<Owner>, failed: bool, t: State)
    requires i <= |owners|
  {
    && Ran(conv, s, states, steps, t) && Accounted(states, steps, refused, failed)
    && HandlesOrphans(s, steps, OrphansAmong(owners[..i], s.clusters.Keys)) && t.clusters == s.clusters
    && OnlyOrphans(owners, s.clusters.Keys, s.ccs, t.ccs)
    && HandledUpTo(owners, i, remaining, failed, s.clusters.Keys, s.ccs, t.ccs)
  }

  lemma {:induction false} NoOrphanYet(conv: Conversion, s: State, owners: seq<Owner>, refused: set<Owner>)
    ensures OrphansSoFar(conv, s, owners, 0, [s], [], refused, [], false, s)
  {
    NothingYet(conv, s);
    NothingFailedYet(s, refused);
  }

  lemma {:induction false} OneMoreOrphanHandled(conv: Conversion, s: State, owners: seq<Owner>, i: nat,
                                                states: seq<State>, steps: seq<Step>, refused: set<Owner>,
                                                remaining: seq<Owner>, failed: bool, was: State, ok: bool,
                                                step: Option<Step>, states': seq<State>, steps': seq<Step>,
                                                remaining': seq<Owner>, t: State)
    requires i < |owners| && NoDuplicates(owners)
    requires OrphansSoFar(conv, s, owners, i, states, steps, refused, remaining, failed, was)
    requires OrphanHandled(conv, was, owners[i], ok, owners[i] in refused, step, t)
    requires step.None? ==> states' == states && steps' == steps
    requires step.Some? ==> states' == states + [t] && steps' == steps + [step.value]
    requires remaining' == if Exists(t.ccs, owners[i]) then remaining + [owners[i]] else remaining
    ensures OrphansSoFar(conv, s, owners, i + 1, states', steps', refused, remaining', failed || !ok, t)
  {
    OneMoreHandled(owners, i, remaining, remaining', failed, ok, s.clusters.Keys, s.ccs, was.ccs, t.ccs);
    OneMoreOrphan(owners, owners[i], s.clusters.Keys, s.ccs, was.ccs, t.ccs);
    OneOrphanAmong(owners, i, s.clusters.Keys);
    if step.Some? {
      RanOneMore(conv, s, states, steps, was, step.value, t);
      AccountOneMore(states, steps, refused, failed, was, step.value, t);
      OneOrphanMore(s, steps, OrphansAmong(owners[..i], s.clusters.Keys), was, owners[i], ok, step.value, steps');
    }
  }

  lemma OneOrphanAmong(owners: seq<Owner>, i: nat, clusters: set<string>)
    requires i < |owners| && NoDuplicates(owners)
    ensures var orphans, orphans' := OrphansAmong(owners[..i], clusters), OrphansAmong(owners[..i + 1], clusters);
      owners[i] !in orphans && orphans' == if owners[i].cluster in clusters then orphans else orphans + {owners[i]}
  {
    assert owners[..i + 1] == owners[..i] + [owners[i]] && owners[i] !in owners[..i];
  }

  lemma {:induction false} OneOrphanMore(s: State, steps: seq<Step>, orphans: set<Owner>, was: State, o: Owner,
                                         ok: bool, step: Step, steps': seq<Step>)
    requires HandlesOrphans(s, steps, orphans) && o !in orphans && Find(was.ccs, o) == Find(s.ccs, o)
    requires HasConfig(was, o)
    requires if ConfigOf(was, o).finalizer then step == ReleaseConfig(o, ok) else step == DeleteConfig(o)
    requires steps' == steps + [step]
    ensures HandlesOrphans(s, steps', orphans + {o})
  {
    HandlesOneMore(steps, orphans, step);
    assert forall j | 0 <= j < |steps| :: steps'[j] == steps[j];
  }

  /** Those of them that have the finalizer can be released. */
  ghost predicate HeldReleasable(s: State, owners: set<Owner>) {
    forall o | o in owners && HasConfig(s, o) && ConfigOf(s, o).finalizer :: ReleasableConfig(s, o)
  }

  /** What they list. */
  ghost function HeldLists(s: State, owners: set<Owner>): (listed: set<Prefix>)
    ensures forall c :: c in listed <==> ListedByOne(s, owners, c)
  {
    set o, c | o in owners && HasConfig(s, o) && ConfigOf(s, o).finalizer && c in Listed(ConfigOf(s, o).patches) :: c
  }

  ghost predicate ListedByOne(s: State, owners: set<Owner>, c: Prefix) {
    exists o :: o in owners && HasConfig(s, o) && ConfigOf(s, o).finalizer && c in Listed(ConfigOf(s, o).patches)
  }

  /** With nothing refused, orphans that can be released are, and exactly what they list is gone. */
  lemma {:induction false} OrphansAreReleased(conv: Conversion, s: State, states: seq<State>, steps: seq<Step>,
                                              orphans: set<Owner>, t: State, failed: bool)
    requires Ran(conv, s, states, steps, t) && Accounted(states, steps, {}, failed)
    requires HandlesOrphans(s, steps, orphans) && HeldReleasable(s, orphans)
    ensures !failed && t.ipam == s.ipam - HeldLists(s, orphans)
  {
    SafelyFollowsIsFollows(conv, states, steps);
    LeavesAreReleased(conv, states, steps, orphans, |steps|);
    assert steps[..|steps|] == steps;
    forall c
      ensures c in ReleasedBy(s, steps) <==> c in HeldLists(s, orphans)
    {
      ReleasedByAll(s, steps, c);
      ListedByOrphans(s, steps, orphans, c);
    }
    assert ReleasedBy(s, steps) == HeldLists(s, orphans);
  }

  lemma {:induction false} OrphansDone(conv: Conversion, s: State, owners: seq<Owner>, states: seq<State>,
                                       steps: seq<Step>, refused: set<Owner>, remaining: seq<Owner>, failed: bool,
                                       t: State)
    requires OrphansSoFar(conv, s, owners, |owners|, states, steps, refused, remaining, failed, t)
    ensures var orphans := OrphansAmong(owners, s.clusters.Keys);
      && HandlesOrphans(s, steps, orphans)
      && (refused == {} && HeldReleasable(s, orphans) ==> !failed && t.ipam == s.ipam - HeldLists(s, orphans))
    ensures forall o | o in owners :: o in remaining <==> Exists(t.ccs, o)
    ensures !failed ==> forall o | o in owners && o.cluster !in s.clusters :: Find(t.ccs, o) == OrphanIn(s.ccs, o)
  {
    var orphans := OrphansAmong(owners, s.clusters.Keys);
    assert owners[..|owners|] == owners;
    if refused == {} && HeldReleasable(s, orphans) {
      OrphansAreReleased(conv, s, states, steps, orphans, t, failed);
    }
  }

  lemma ListedByOrphans(s: State, steps: seq<Step>, orphans: set<Owner>, c: Prefix)
    requires HandlesOrphans(s, steps, orphans)
    ensures ListedByOne(s, orphans, c) <==> exists i :: ReleasedAt(s, steps, i, c)
  {
    if o :| o in orphans && HasConfig(s, o) && ConfigOf(s, o).finalizer && c in Listed(ConfigOf(s, o).patches) {
      var i :| 0 <= i < |steps| && steps[i].owner == o;
      assert ReleasedAt(s, steps, i, c);
    }
  }

  /** If all but those of existing clusters are listed, they are all orphans there are. */
  lemma AllAmong(s: State, owners: seq<Owner>, relevant: set<string>)
    requires relevant <= s.clusters.Keys
    requires forall o :: o in owners <==> Exists(s.ccs, o) && o.cluster !in relevant
    ensures OrphansAmong(owners, s.clusters.Keys) == AllOrphans(s)
  {
  }

  // ----- Restoring -----

  /** Each of these clusters is repaired once, as far as that is possible. */
  ghost predicate RepairsOnce(steps: seq<Step>, clusters: set<string>) {
    && OnlyRepairs(steps) && (forall i | 0 <= i < |steps| :: steps[i].cluster in clusters)
    && (forall i, j | 0 <= i < j < |steps| :: steps[i].cluster != steps[j].cluster)
    && (forall cl | cl in clusters :: exists i :: 0 <= i < |steps| && steps[i].cluster == cl)
  }

  /** The clusters repaired so far. */
  ghost predicate RepairedSoFar(conv: Conversion, s: State, states: seq<State>, steps: seq<Step>, refused: set<Owner>,
                                done: set<string>, failed: bool, t: State) {
    && Ran(conv, s, states, steps, t) && RepairsOnce(steps, done) && Accounted(states, steps, refused, failed)
    && (!failed ==> forall cl | cl in done :: RepairedCluster(t, cl)) && KeptBut(done, s.ccs, t.ccs)
  }

  lemma {:induction false} NoneRepairedYet(conv: Conversion, s: State, refused: set<Owner>)
    ensures RepairedSoFar(conv, s, [s], [], refused, {}, false, s)
  {
    NothingYet(conv, s);
    NothingFailedYet(s, refused);
  }

  lemma {:induction false} OneMoreRepaired(conv: Conversion, s: State, states: seq<State>, steps: seq<Step>,
                                           refused: set<Owner>, done: set<string>, failed: bool, was: State,
                                           cl: string, ok: bool, t: State)
    requires RepairedSoFar(conv, s, states, steps, refused, done, failed, was) && cl !in done
    requires RepairedTo(was, cl, ok, t) && (ok <==> !RepairRefused(was, cl, refused)) && KeptBut({cl}, was.ccs, t.ccs)
    ensures RepairedSoFar(conv, s, states + [t], steps + [if ok then RepairCluster(cl) else RepairPartly(cl)], refused,
                          done + {cl}, failed || !ok, t)
  {
    RanRepair(conv, s, states, steps, was, cl, ok, t);
    OneMoreRepair(steps, done, cl, ok);
    OneRepairAccounted(states, steps, refused, failed, was, cl, ok, t);
    if !failed && ok {
      OthersStayRepaired(was, t, cl, done);
    }
  }

  lemma OneMoreRepair(steps: seq<Step>, clusters: set<string>, cl: string, ok: bool)
    requires RepairsOnce(steps, clusters) && cl !in clusters
    ensures RepairsOnce(steps + [if ok then RepairCluster(cl) else RepairPartly(cl)], clusters + {cl})
  {
    var steps' := steps + [if ok then RepairCluster(cl) else RepairPartly(cl)];
    assert steps'[|steps|].cluster == cl;
    assert forall i | 0 <= i < |steps| :: steps'[i] == steps[i];
    forall c | c in clusters
      ensures exists i :: 0 <= i < |steps'| && steps'[i].cluster == c
    {
      var i :| 0 <= i < |steps| && steps[i].cluster == c;
      assert steps'[i].cluster == c;
    }
  }

  lemma OneRepairAccounted(states: seq<State>, steps: seq<Step>, refused: set<Owner>, failed: bool, was: State,
                           cl: string, ok: bool, t: State)
    requires Accounted(states, steps, refused, failed) && states[|steps|] == was
    requires ok <==> !RepairRefused(was, cl, refused)
    ensures Accounted(states + [t], steps + [if ok then RepairCluster(cl) else RepairPartly(cl)], refused,
                      failed || !ok)
  {
    AccountOneMore(states, steps, refused, failed, was, if ok then RepairCluster(cl) else RepairPartly(cl), t);
  }

  /** The ClusterConfigs of all clusters but these are as before. */
  ghost predicate KeptBut(clusters: set<string>, was: map<string, ClusterConfigs>, now: map<string, ClusterConfigs>) {
    forall cl | cl !in clusters :: (cl in was <==> cl in now) && (cl in was ==> was[cl] == now[cl])
  }

  ghost predicate IsOrphan(s: State, o: Owner) {
    HasConfig(s, o) && o.cluster !in s.clusters
  }

  ghost function AllOrphans(s: State): (orphans: set<Owner>)
    ensures forall o :: o in orphans <==> IsOrphan(s, o)
  {
    set cl, r | cl in s.ccs && r in s.ccs[cl] && cl !in s.clusters :: Owner(cl, r)
  }

  /** What happens before the rebuild: repairs, and if they went well, the orphans. */
  ghost predicate BeforeRebuild(states: seq<State>, steps: seq<Step>, repairs: nat, relevant: set<string>) {
    && |states| == |steps| + 1 && repairs <= |steps| && RepairsOnce(steps[..repairs], relevant)
    && if SomethingFailed(steps[..repairs]) then |steps| == repairs
       else HandlesOrphans(states[repairs], steps[repairs..], AllOrphans(states[repairs]))
  }

  /** A rebuild fails or gives this allocator; all its orders agree on that. */
  ghost predicate RebuildOutcome(s: State, relevant: set<string>, failed: bool, a: Allocator) {
    (failed <==> RebuildsTo(s, relevant, None)) && (!failed ==> RebuildsTo(s, relevant, Some(a)))
  }

  lemma {:induction false} OneOutcome(s: State, relevant: set<string>, failed: bool, a: Allocator)
    requires RebuildsTo(s, relevant, if failed then None else Some(a))
    ensures RebuildOutcome(s, relevant, failed, a)
  {
    if !failed && RebuildsTo(s, relevant, None) {
      RebuildHasOneResult(s, relevant, None, Some(a));
    }
  }

  /** A restore fails exactly if one of its repairs or releases fails or, all of them having gone well,
      the rebuild does. */
  ghost predicate RestoreOutcome(states: seq<State>, steps: seq<Step>, repairs: nat, relevant: set<string>,
                                 refused: set<Owner>, failed: bool, t: State) {
    && Explained(states, steps, refused)
    && if SomethingFailed(steps) then failed && BeforeRebuild(states, steps, repairs, relevant)
       else
         && steps != [] && steps[|steps| - 1] == RebuildIpam(relevant)
         && BeforeRebuild(states[..|steps|], steps[..|steps| - 1], repairs, relevant)
         && RebuildOutcome(t, relevant, failed, t.ipam)
         && (failed ==> t == states[|steps| - 1])
  }

  /** Repairs and orphans are done, as far as they go. */
  ghost predicate PreparedBy(conv: Conversion, s: State, states: seq<State>, steps: seq<Step>, repairs: nat,
                             relevant: set<string>, refused: set<Owner>, failed: bool, t: State) {
    && Ran(conv, s, states, steps, t) && Accounted(states, steps, refused, failed)
    && BeforeRebuild(states, steps, repairs, relevant)
    && (!failed ==> Prepared(s, t, relevant) && RepairedFirst(s, states, steps, repairs, relevant, t))
  }

  /** The orphans are handled, as far as that is possible. */
  ghost predicate OrphansHandledBy(conv: Conversion, s: State, states: seq<State>, steps: seq<Step>,
                                   refused: set<Owner>, failed: bool, t: State) {
    && Ran(conv, s, states, steps, t) && Accounted(states, steps, refused, failed)
    && HandlesOrphans(s, steps, AllOrphans(s)) && KeptFor(s.clusters.Keys, s.ccs, t.ccs)
    && (!failed ==> t.ccs == WithoutOrphans(s))
  }

  lemma {:induction false} RepairsFailed(conv: Conversion, s: State, states: seq<State>, steps: seq<Step>,
                                         relevant: set<string>, refused: set<Owner>, t: State)
    requires RepairedSoFar(conv, s, states, steps, refused, relevant, true, t)
    ensures PreparedBy(conv, s, states, steps, |steps|, relevant, refused, true, t)
  {
    assert steps[..|steps|] == steps;
  }

  lemma {:induction false} PreparationDone(conv: Conversion, s: State, states: seq<State>, steps: seq<Step>, s1: State,
                                           more: seq<State>, moreSteps: seq<Step>, states': seq<State>,
                                           steps': seq<Step>, relevant: set<string>, refused: set<Owner>,
                                           failed: bool, t: State)
    requires RepairedSoFar(conv, s, states, steps, refused, relevant, false, s1) && relevant <= s.clusters.Keys
    requires OrphansHandledBy(conv, s1, more, moreSteps, refused, failed, t)
    requires s.parents == s1.parents == t.parents && s.clusters == s1.clusters == t.clusters
    requires states' == states + more[1..] && steps' == steps + moreSteps
    ensures PreparedBy(conv, s, states', steps', |steps|, relevant, refused, failed, t)
  {
    RanOn(conv, s, states, steps, s1, more, moreSteps, t);
    AccountOn(states, steps, more, moreSteps, refused, false, failed);
    PreparationSteps(s1, states, steps, more, moreSteps, states', steps', relevant);
    if !failed {
      PreparedState(s, s1, t, relevant);
      assert steps'[..|steps|] == steps && states'[|steps|] == s1;
      KeptMeans(s, s1, s1, relevant);
    }
  }

  lemma {:induction false} PreparationSteps(s1: State, states: seq<State>, steps: seq<Step>, more: seq<State>,
                                            moreSteps: seq<Step>, states': seq<State>, steps': seq<Step>,
                                            relevant: set<string>)
    requires RepairsOnce(steps, relevant) && !SomethingFailed(steps) && |states| == |steps| + 1
    requires |more| == |moreSteps| + 1 && more[0] == s1 == states[|steps|]
    requires HandlesOrphans(s1, moreSteps, AllOrphans(s1))
    requires states' == states + more[1..] && steps' == steps + moreSteps
    ensures BeforeRebuild(states', steps', |steps|, relevant)
  {
    assert steps'[..|steps|] == steps && steps'[|steps|..] == moreSteps;
  }

  lemma {:induction false} PreparedState(s: State, s1: State, t: State, relevant: set<string>)
    requires s.parents == s1.parents == t.parents && s.clusters == s1.clusters == t.clusters
    requires relevant <= s.clusters.Keys && forall cl | cl in relevant :: RepairedCluster(s1, cl)
    requires KeptBut(relevant, s.ccs, s1.ccs) && KeptFor(s1.clusters.Keys, s1.ccs, t.ccs)
    ensures Prepared(s, s1, relevant) && Prepared(s, t, relevant)
  {
    KeptMeans(s, s1, s1, relevant);
    KeptMeans(s, s1, t, relevant);
  }

  lemma {:induction false} RebuildAccounted(before: seq<State>, states: seq<State>, stepsBefore: seq<Step>,
                                            steps: seq<Step>, repairs: nat, relevant: set<string>,
                                            refused: set<Owner>, was: State, t: State, failed: bool)
    requires Accounted(before, stepsBefore, refused, false) && BeforeRebuild(before, stepsBefore, repairs, relevant)
    requires states == before + [t] && steps == stepsBefore + [RebuildIpam(relevant)]
    requires before[|stepsBefore|] == was && if failed then t == was else t == was.(ipam := t.ipam)
    requires RebuildOutcome(was, relevant, failed, t.ipam)
    ensures RestoreOutcome(states, steps, repairs, relevant, refused, failed, t)
  {
    AccountOneMore(before, stepsBefore, refused, false, was, RebuildIpam(relevant), t);
    SameRebuild(was, relevant, failed, t);
    OutcomeOfRebuild(before, states, stepsBefore, steps, repairs, relevant, refused, failed, t);
  }

  lemma {:induction false} OutcomeOfRebuild(before: seq<State>, states: seq<State>, stepsBefore: seq<Step>,
                                            steps: seq<Step>, repairs: nat, relevant: set<string>,
                                            refused: set<Owner>, failed: bool, t: State)
    requires Accounted(states, steps, refused, false) && BeforeRebuild(before, stepsBefore, repairs, relevant)
    requires states == before + [t] && steps == stepsBefore + [RebuildIpam(relevant)]
    requires RebuildOutcome(t, relevant, failed, t.ipam)
    requires failed ==> t == before[|stepsBefore|]
    ensures RestoreOutcome(states, steps, repairs, relevant, refused, failed, t)
  {
    assert before == states[..|steps|] && stepsBefore == steps[..|steps| - 1];
  }

  lemma {:induction false} SameRebuild(s: State, relevant: set<string>, failed: bool, t: State)
    requires RebuildOutcome(s, relevant, failed, t.ipam) && t == s.(ipam := t.ipam)
    ensures RebuildOutcome(t, relevant, failed, t.ipam)
  {
    assert forall r :: RebuildsTo(s, relevant, r) <==> RebuildsTo(t, relevant, r);
  }

  /** All orphans that have the finalizer can be released. */
  ghost predicate OrphansReleasable(s: State) {
    HeldReleasable(s, AllOrphans(s))
  }

  lemma RepairsNotRefused(states: seq<State>, steps: seq<Step>, refused: set<Owner>, failed: bool)
    requires Accounted(states, steps, refused, failed) && OnlyRepairs(steps)
    ensures refused == {} ==> !failed
  {
  }

  lemma SameOrphans(s: State, t: State, relevant: set<string>)
    requires t.clusters == s.clusters && t.ipam == s.ipam && KeptBut(relevant, s.ccs, t.ccs)
    requires relevant <= s.clusters.Keys
    ensures OrphansReleasable(s) ==> OrphansReleasable(t)
  {
    forall o | IsOrphan(t, o) && ConfigOf(t, o).finalizer && OrphansReleasable(s)
      ensures ReleasableConfig(t, o)
    {
      assert IsOrphan(s, o) && ConfigOf(s, o) == ConfigOf(t, o);
    }
  }

  /** Some held patch list has nested blocks under no configured parent. */
  ghost predicate SomeNestedUnparented(s: State) {
    exists o :: NestedUnparented(s, o)
  }

  /** From a state with the invariant the rebuild fails exactly if such a list is left. */
  lemma {:induction false} RebuildFailsIff(conv: Conversion, s: State, states: seq<State>, steps: seq<Step>,
                                           relevant: set<string>, was: State, t: State, failed: bool)
    requires Ran(conv, s, states, steps, was) && Inv(s) && t == was.(ipam := t.ipam)
    requires RebuildOutcome(was, relevant, failed, t.ipam)
    ensures failed <==> SomeNestedUnparented(t)
  {
    FollowsInv(conv, states, steps, |steps|);
    RebuiltForest(was, relevant, if failed then None else Some(t.ipam));
    SameNesting(was, t);
  }

  lemma {:induction false} SameNesting(s: State, t: State)
    requires t == s.(ipam := t.ipam)
    ensures SomeNestedUnparented(s) <==> SomeNestedUnparented(t)
  {
    assert forall o, c :: InConfig(s, o, c) <==> InConfig(t, o, c);
    assert forall c :: UnderParent(s, c) <==> UnderParent(t, c);
    assert forall o :: NestedUnparented(s, o) <==> NestedUnparented(t, o);
  }

  /** The rebuild at the end of a restore, and what the whole has come to. */
  lemma {:induction false} RestoreEnds(conv: Conversion, s: State, before: seq<State>, stepsBefore: seq<Step>,
                                       was: State, repairs: nat, states: seq<State>, steps: seq<Step>,
                                       relevant: set<string>, refused: set<Owner>, failed: bool, t: State)
    requires PreparedBy(conv, s, before, stepsBefore, repairs, relevant, refused, false, was)
    requires RebuildOutcome(was, relevant, failed, t.ipam) && relevant <= s.clusters.Keys
    requires if failed then t == was else t == was.(ipam := t.ipam)
    requires states == before + [t] && steps == stepsBefore + [RebuildIpam(relevant)]
    ensures Went(conv, UnmatchedCovered(s, relevant), s, states, steps, t)
    ensures RestoreOutcome(states, steps, repairs, relevant, refused, failed, t) && !SomethingFailed(steps)
    ensures Restored(s, states, steps, repairs, relevant, t)
    ensures Inv(s) ==> (failed <==> SomeNestedUnparented(t))
    ensures !failed && Inv(s) ==> (HeldRegistered(t) <==> UnmatchedCovered(s, relevant))
  {
    RestoreDone(conv, s, before, stepsBefore, relevant, was, t, failed);
    FirstStays(s, before, stepsBefore, repairs, relevant, was, t, RebuildIpam(relevant));
    AccountOneMore(before, stepsBefore, refused, false, was, RebuildIpam(relevant), t);
    RebuildAccounted(before, states, stepsBefore, steps, repairs, relevant, refused, was, t, failed);
    if Inv(s) {
      RebuildFailsIff(conv, s, before, stepsBefore, relevant, was, t, failed);
    }
    OrphansUnheld(s, states, steps, repairs, relevant, t);
  }

  /** After the repairs and the handling of orphans, whether the rebuild fails or not. */
  ghost predicate Restored(s: State, states: seq<State>, steps: seq<Step>, repairs: nat, relevant: set<string>,
                           t: State) {
    && (forall cl | cl in relevant :: RepairedCluster(t, cl))
    && (forall o: Owner | o.cluster !in t.clusters :: Unheld(t.ccs, o))
    && RepairedFirst(s, states, steps, repairs, relevant, t)
  }

  lemma {:induction false} OrphansUnheld(s: State, states: seq<State>, steps: seq<Step>, repairs: nat,
                                         relevant: set<string>, t: State)
    requires RepairedFirst(s, states, steps, repairs, relevant, t) && t.clusters == s.clusters
    ensures forall o: Owner | o.cluster !in t.clusters :: Unheld(t.ccs, o)
  {
  }

  lemma ChangedSameOrphans(s: State, parents: map<string, seq<Prefix>>, t: State)
    requires ChangeStep(s, parents, t)
    ensures OrphansReleasable(s) <==> OrphansReleasable(t)
  {
    assert forall o :: IsOrphan(s, o) <==> IsOrphan(t, o);
    assert forall o :: ReleasableConfig(s, o) <==> ReleasableConfig(t, o);
  }

  // ----- A new process -----

  function Emptied(before: State, parents: map<string, seq<Prefix>>): State {
    before.(parents := parents, ipam := map[])
  }

  /** The start goes as a restore goes. */
  ghost predicate StartOutcome(conv: Conversion, s: State, relevant: set<string>, refused: set<Owner>, failed: bool,
                               t: State) {
    exists states, steps, repairs ::
      Went(conv, false, s, states, steps, t) && RestoreOutcome(states, steps, repairs, relevant, refused, failed, t)
  }

  ghost predicate OrphansReadable(s: State) {
    forall o | IsOrphan(s, o) && ConfigOf(s, o).finalizer :: ReadableValues(ConfigOf(s, o).patches)
  }

  lemma {:induction false} EmptyIsReleasable(before: State, parents: map<string, seq<Prefix>>)
    requires OrphansReadable(before)
    ensures OrphansReleasable(Emptied(before, parents))
  {
    forall o | IsOrphan(Emptied(before, parents), o) && ConfigOf(Emptied(before, parents), o).finalizer
      ensures ReleasableConfig(Emptied(before, parents), o)
    {
      assert IsOrphan(before, o);
    }
  }

  lemma {:induction false} InvIsReadable(s: State)
    requires Inv(s)
    ensures OrphansReadable(s)
  {
    forall o | IsOrphan(s, o)
      ensures ReadableValues(ConfigOf(s, o).patches)
    {
      HeldIfExisting(s, o);
    }
  }

  lemma {:induction false} StartsFrom(conv: Conversion, s: State, states: seq<State>, steps: seq<Step>,
                                      repairs: nat, before: State, relevant: set<string>, refused: set<Owner>,
                                      failed: bool, t: State)
      returns (states': seq<State>, steps': seq<Step>)
    requires s == Emptied(before, t.parents) && ParentsOk(t.parents) && t.clusters == s.clusters
    requires Went(conv, UnmatchedCovered(s, relevant), s, states, steps, t)
    requires RestoreOutcome(states, steps, repairs, relevant, refused, failed, t)
    requires refused == {} && OrphansReleasable(s) ==> !SomethingFailed(steps)
    requires !SomethingFailed(steps) ==> RepairedFirst(s, states, steps, repairs, relevant, t)
    ensures StartOutcome(conv, s, relevant, refused, failed, t)
    ensures !failed ==> Restarted(conv, before, states', steps', t.parents, relevant, t)
    ensures !failed && Inv(before) && ConfigFits(before, t.parents) && UnmatchedCovered(before, relevant) ==>
      SafelyFollows(conv, states', steps') && Inv(t) && HeldRegistered(t)
    ensures refused == {} && OrphansReadable(before) ==>
      RebuildOutcome(t, relevant, failed, t.ipam)
    ensures refused == {} && Inv(before) && ConfigFits(before, t.parents) ==> (failed <==> SomeNestedUnparented(t))
  {
    StartAccounted(conv, s, states, steps, repairs, before, relevant, refused, failed, t);
    states', steps' := states, steps;
    if !failed {
      states', steps' := RestartsFrom(conv, s, states, steps, repairs, t.parents, relevant, t, before);
    }
  }

  lemma {:induction false} StartAccounted(conv: Conversion, s: State, states: seq<State>, steps: seq<Step>,
                                          repairs: nat, before: State, relevant: set<string>, refused: set<Owner>,
                                          failed: bool, t: State)
    requires s == Emptied(before, t.parents) && ParentsOk(t.parents) && t.clusters == s.clusters
    requires Went(conv, UnmatchedCovered(s, relevant), s, states, steps, t)
    requires RestoreOutcome(states, steps, repairs, relevant, refused, failed, t)
    requires refused == {} && OrphansReleasable(s) ==> !SomethingFailed(steps)
    requires !SomethingFailed(steps) ==> RepairedFirst(s, states, steps, repairs, relevant, t)
    ensures StartOutcome(conv, s, relevant, refused, failed, t)
    ensures refused == {} && OrphansReadable(before) ==>
      RebuildOutcome(t, relevant, failed, t.ipam)
    ensures refused == {} && Inv(before) && ConfigFits(before, t.parents) ==> (failed <==> SomeNestedUnparented(t))
  {
    if refused == {} && OrphansReadable(before) {
      EmptyIsReleasable(before, t.parents);
    }
    if refused == {} && Inv(before) && ConfigFits(before, t.parents) {
      InvIsReadable(before);
      EmptyIsReleasable(before, t.parents);
      AfterRepairs(conv, s, states, steps, repairs, before, relevant, t);
      RebuiltForest(t, relevant, if failed then None else Some(t.ipam));
    }
    assert Went(conv, false, s, states, steps, t);
  }

  /** What is left to rebuild from after the repairs and the handling of orphans. */
  lemma {:induction false} AfterRepairs(conv: Conversion, s: State, states: seq<State>, steps: seq<Step>,
                                        repairs: nat, before: State, relevant: set<string>, t: State)
    requires s == Emptied(before, t.parents) && t.clusters == s.clusters
    requires Went(conv, UnmatchedCovered(s, relevant), s, states, steps, t)
    requires RepairedFirst(s, states, steps, repairs, relevant, t)
    requires Inv(before) && ConfigFits(before, t.parents)
    ensures DataOk(t) && PlacedOk(t) && OwnersDisjoint(t)
  {
    var mid := Operations.Under(states[repairs], before);
    var states', steps' := RepairsUnder(conv, states, steps, repairs, before);
    FollowsInv(conv, states', steps', |steps'|);
    RepairsHoldNoMore(conv, states', steps', |steps'|);
    RestartData(mid, t);
    assert HoldsNoMore(before, t);
  }
}
