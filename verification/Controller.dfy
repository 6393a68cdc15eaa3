/** The controller's operations on the shared allocator and the platform cluster.  Each of
    them is a sequence of steps of the state machine, so every theorem about runs holds of
    them. */
module Controller {
  import opened Prefixes
  import opened Forest
  import opened GoIpam
  import opened Config
  import opened Chains
  import opened Patches
  import opened Repair
  import opened Release
  import opened Rebuild
  import opened RebuildTheorems
  import opened InjectionManagement
  import opened InjectionTheorems
  import opened System
  import opened SystemInvariant
  import opened ReconcileInvariant
  import opened SystemTheorems
  import opened Operations
  import opened Failures

  /** The objects on the platform cluster. */
  class Platform {
    var clusters: map<string, AppliedRules>
    var ccs: map<string, ClusterConfigs>

    constructor ()
      ensures clusters == map[] && ccs == map[]
    {
      clusters, ccs := map[], map[];
    }
  }

  class IPAMController {
    const ipam: Ipamer
    const platform: Platform
    const conv: Conversion
    var parents: map<string, seq<Prefix>>

    constructor (ipam: Ipamer, platform: Platform, parents: map<string, seq<Prefix>>, conv: Conversion)
      ensures this.ipam == ipam && this.platform == platform && this.parents == parents && this.conv == conv
    {
      this.ipam, this.platform, this.parents, this.conv := ipam, platform, parents, conv;
    }

    ghost function Snapshot(): State
      reads this, ipam, ipam.internal, platform
    {
      State(parents, ipam.internal.prefixes, platform.clusters, platform.ccs)
    }

    // ----- The configuration -----

    /** A configuration the webhook has accepted replaces the current one; the allocator is not
        touched. */
    method SetConfig(parents: map<string, seq<Prefix>>)
      requires ParentsOk(parents)
      modifies this
      ensures ChangeStep(old(Snapshot()), parents, Snapshot())
    {
      this.parents := parents;
    }

    /** Reconciling the configuration: it is stored, and if a refresh is due the allocator is
        restored from the platform cluster.  Only the restore can fail. */
    method ReconcileConfig(parents: map<string, seq<Prefix>>, due: bool, relevant: set<string>, refused: set<Owner>)
        returns (failed: bool, ghost states: seq<State>, ghost steps: seq<Step>, ghost repairs: nat)
      requires ParentsOk(parents) && relevant <= platform.clusters.Keys
      modifies this, ipam, platform`ccs
      ensures steps != [] && steps[0] == ChangeConfig(parents) && (!due ==> |steps| == 1 && !failed)
      ensures Went(conv, SafeStep(old(Snapshot()), ChangeConfig(parents))
                         && (due ==> UnmatchedCovered(old(Snapshot()), relevant)),
                   old(Snapshot()), states, steps, Snapshot())
      ensures due ==> RestoreOutcome(states[1..], steps[1..], repairs, relevant, refused, failed, Snapshot())
      ensures refused == {} && OrphansReleasable(old(Snapshot())) ==> !SomethingFailed(steps[1..])
      ensures due && Inv(old(Snapshot())) && SafeStep(old(Snapshot()), ChangeConfig(parents)) ==>
        (failed <==> SomethingFailed(steps[1..]) || SomeNestedUnparented(Snapshot()))
      ensures due && !failed && Inv(old(Snapshot())) && SafeStep(old(Snapshot()), ChangeConfig(parents)) ==>
        (HeldRegistered(Snapshot()) <==> UnmatchedCovered(old(Snapshot()), relevant))
    {
      ghost var s := Snapshot();
      SetConfig(parents);
      ghost var was := Snapshot();
      failed, repairs := false, 0;
      ghost var more, moreSteps := [was], [];
      NothingYet(conv, was);
      if due {
        failed, more, moreSteps, repairs := RestoreIPAMFromClusterState(relevant, refused);
        ChangedSame(s, parents, was, relevant);
        ChangedSameOrphans(s, parents, was);
      }
      states, steps := AfterChange(conv, s, parents, was, due ==> UnmatchedCovered(was, relevant), more, moreSteps,
                                   Snapshot());
    }

    /** The start of a process, with an empty allocator and the configuration it has found; `before`
        is how the last process has left things.  If it succeeds, it comes to repairs followed by one
        restart of the state machine.  It fails exactly if the restore does. */
    method StartUp(relevant: set<string>, refused: set<Owner>, ghost before: State)
        returns (failed: bool, ghost states: seq<State>, ghost steps: seq<Step>)
      requires ParentsOk(parents) && relevant <= platform.clusters.Keys
      requires before.clusters == platform.clusters && before.ccs == platform.ccs
      modifies ipam, platform`ccs
      ensures !failed ==> Restarted(conv, before, states, steps, parents, relevant, Snapshot())
      ensures !failed && Inv(before) && ConfigFits(before, parents) && UnmatchedCovered(before, relevant) ==>
        SafelyFollows(conv, states, steps) && Inv(Snapshot()) && HeldRegistered(Snapshot())
      ensures StartOutcome(conv, Emptied(before, parents), relevant, refused, failed, Snapshot())
      ensures refused == {} && OrphansReadable(before) ==>
        RebuildOutcome(Snapshot(), relevant, failed, Snapshot().ipam)
      ensures refused == {} && Inv(before) && ConfigFits(before, parents) ==>
        (failed <==> SomeNestedUnparented(Snapshot()))
    {
      ipam.internal := new Library();
      ghost var s, repairs := Snapshot(), 0;
      failed, states, steps, repairs := RestoreIPAMFromClusterState(relevant, refused);
      states, steps := StartsFrom(conv, s, states, steps, repairs, before, relevant, refused, failed, Snapshot());
    }

    // ----- Clusters -----

    /** Reconciling an existing cluster.  The API server may refuse the annotation, and it refuses the
        ClusterConfigs of some rules.  If nothing is refused this is one reconcile of the state machine,
        otherwise a partly written one; and the error says how it went. */
    method HandleCreateOrUpdate(cl: string, rules: seq<Rule>, annotated: bool, refused: set<RuleId>)
        returns (failed: bool, ghost ws: seq<Work>, ghost res: Option<Managed>, ghost intended: State)
      requires cl in platform.clusters
      modifies ipam.internal, platform
      ensures ReconcileWith(old(Snapshot()), cl, rules, conv, ws, res, intended)
      ensures PartlyWritten(old(Snapshot()), intended, cl, Snapshot())
      ensures res.Some? ==> WrittenUnless(old(Snapshot()), intended, cl, annotated, refused, Snapshot())
      ensures annotated && refused == {} ==> Snapshot() == intended
      ensures failed <==> ReconcileFailed(ConfigsOf(old(Snapshot()), cl), res) || Snapshot() != intended
      ensures NoDuplicates(Ids(rules)) ==>
        ReconcileOutcome(old(Snapshot()), cl, rules, conv, failed, intended, Snapshot())
    {
      ghost var s := Snapshot();
      var ccs: ClusterConfigs := if cl in platform.ccs then platform.ccs[cl] else map[];
      var r;
      r, ws := ManageInjections(ipam.internal, platform.clusters[cl], ccs, rules, parents, conv);
      res, intended := r, Snapshot();
      match r {
        case None =>
          failed := true;
          assert PartlyWritten(Snapshot(), Snapshot(), cl, Snapshot());
        case Some(m) =>
          failed, intended := ApplyResult(cl, m, annotated, refused);
      }
      if NoDuplicates(Ids(rules)) {
        OutcomeOfReconcile(s, cl, rules, conv, ws, res, intended, failed, Snapshot());
      }
    }

    method ApplyResult(cl: string, m: Managed, annotated: bool, refused: set<RuleId>)
        returns (failed: bool, ghost intended: State)
      requires cl in platform.clusters
      modifies platform
      ensures intended == ReconciledTo(old(Snapshot()), cl, m)
      ensures PartlyWritten(old(Snapshot()), intended, cl, Snapshot())
      ensures WrittenUnless(old(Snapshot()), intended, cl, annotated, refused, Snapshot())
      ensures annotated && refused == {} ==> Snapshot() == intended
      ensures failed <==> ResultFailed(ConfigsOf(old(Snapshot()), cl), m) || Snapshot() != intended
    {
      ghost var s := Snapshot();
      intended := ReconciledTo(s, cl, m);
      var ccs: ClusterConfigs := if cl in platform.ccs then platform.ccs[cl] else map[];
      var after, ok := CreateConfigs(Apply(ccs, m.instruction), m.work.creates);
      var complete := Write(cl, m.work.annotation, after, annotated, refused);
      failed := m.work.failed || m.work.issues != {} || !ok || !complete;
      WrittenIsPart(s, intended, cl, annotated, refused, Snapshot());
    }

    method Write(cl: string, annotation: AppliedRules, after: ClusterConfigs, annotated: bool, refused: set<RuleId>)
        returns (complete: bool)
      requires cl in platform.clusters
      modifies platform
      ensures var s, intended := old(Snapshot()), WithCluster(old(Snapshot()), cl, annotation, after);
        && OnlyDiffers(intended, cl, Snapshot())
        && WrittenUnless(s, intended, cl, annotated, refused, Snapshot())
        && (complete <==> Snapshot() == intended)
        && (annotated && refused == {} ==> complete)
    {
      ghost var s := Snapshot();
      var ccs: ClusterConfigs := if cl in platform.ccs then platform.ccs[cl] else map[];
      var written := Written(ccs, after, refused);
      complete := written == after && (annotated || platform.clusters[cl] == annotation);
      if annotated {
        platform.clusters := platform.clusters[cl := annotation];
      }
      platform.ccs := platform.ccs[cl := written];
      WriteDone(s, cl, annotation, after, annotated, refused, Snapshot());
    }

    /** The cluster is gone: releases and deletes its ClusterConfigs one by one.  Without an
        error, none of them holds the CIDR management finalizer any more.  The steps are safe
        if all held it before.  Every failure has a cause; with nothing refused, and lists whose
        blocks are leaves, there is none, and exactly the listed blocks are gone. */
    method HandleDelete(cl: string, refused: set<Owner>) returns (failed: bool, ghost states: seq<State>,
                        ghost steps: seq<Step>)
      requires cl !in platform.clusters
      modifies ipam, platform`ccs
      ensures Went(conv, AllHeld(ConfigsOf(old(Snapshot()), cl)), old(Snapshot()), states, steps, Snapshot())
      ensures ipam.internal == old(ipam.internal) || fresh(ipam.internal)
      ensures Accounted(states, steps, refused, failed)
      ensures HandlesOnce(steps, OwnersOf(cl, ConfigsOf(old(Snapshot()), cl).Keys)) && OnlyReleases(steps)
      ensures !failed ==> LeftToOthers(ConfigsOf(Snapshot(), cl), {})
      ensures refused == {} && ConfigsReleasable(old(Snapshot()), cl) ==>
        !failed && Snapshot().ipam == old(Snapshot()).ipam - ListedBy(ConfigsOf(old(Snapshot()), cl))
    {
      failed, states, steps := false, [Snapshot()], [];
      NoneDeletedYet(conv, Snapshot(), cl, refused);
      if cl in platform.ccs {
        var todo := platform.ccs[cl].Keys;
        while todo != {}
          invariant ipam.internal == old(ipam.internal) || fresh(ipam.internal)
          invariant cl !in platform.clusters && cl in platform.ccs
          invariant DeletedSoFar(conv, old(Snapshot()), cl, states, steps, refused, todo, failed, Snapshot())
          decreases todo
        {
          var r :| r in todo;
          ghost var was, before, stepsBefore := Snapshot(), states, steps;
          var ok := ReleaseAndDelete(Owner(cl, r), Owner(cl, r) in refused);
          states, steps := states + [Snapshot()], steps + [ReleaseConfig(Owner(cl, r), ok)];
          OneMoreDeleted(conv, old(Snapshot()), cl, before, stepsBefore, refused, todo, failed, was, r, ok, states,
                         steps, Snapshot());
          failed := failed || !ok;
          todo := todo - {r};
        }
      }
      AllDeleted(conv, old(Snapshot()), cl, states, steps, refused, failed, Snapshot());
    }

    /** `refused` says whether the API server refuses the removal of the finalizer. */
    method ReleaseAndDelete(o: Owner, refused: bool) returns (ok: bool)
      requires o.cluster !in platform.clusters && Exists(platform.ccs, o)
      modifies ipam, platform`ccs
      ensures ReleaseStep(old(Snapshot()), o, ok, Snapshot()) && ReleaseOutcome(old(Snapshot()), o, ok, refused)
      ensures ipam.internal == old(ipam.internal) || fresh(ipam.internal)
      ensures !ok ==> ipam.internal == old(ipam.internal)
      ensures o.cluster in platform.ccs
      ensures OneReleased(old(platform.ccs[o.cluster]), platform.ccs[o.cluster], o.rule, ok)
    {
      var cc := platform.ccs[o.cluster][o.rule];
      var cc';
      ok, cc' := ReleaseCIDRsForClusterConfig(ipam, cc, !refused);
      Delete(o, cc');
    }

    /** Deletion by the API server, of an object that has just been changed to cc. */
    method Delete(o: Owner, cc: ClusterConfig)
      requires Exists(platform.ccs, o)
      modifies platform`ccs
      ensures Snapshot() == WithConfig(old(Snapshot()), o, AfterDelete(cc))
    {
      var ccs: ClusterConfigs := platform.ccs[o.cluster];
      ccs := if cc.finalizer || cc.foreign then ccs[o.rule := cc.(deleting := true)] else ccs - {o.rule};
      platform.ccs := platform.ccs[o.cluster := ccs];
    }

    // ----- Orphans -----

    /** Deletes the listed ClusterConfigs whose cluster is gone, releasing those that hold the
        finalizer, and returns the ones that still exist.  Every failure has a cause. */
    method HandleOrphanedClusterConfigs(owners: seq<Owner>, refused: set<Owner>)
        returns (failed: bool, remaining: seq<Owner>, ghost states: seq<State>, ghost steps: seq<Step>)
      requires NoDuplicates(owners) && forall o | o in owners :: Exists(platform.ccs, o)
      modifies ipam, platform`ccs
      ensures Ran(conv, old(Snapshot()), states, steps, Snapshot())
      ensures ipam.internal == old(ipam.internal) || fresh(ipam.internal)
      ensures OnlyOrphans(owners, platform.clusters.Keys, old(platform.ccs), platform.ccs)
      ensures Accounted(states, steps, refused, failed)
      ensures var orphans := OrphansAmong(owners, platform.clusters.Keys);
        && HandlesOrphans(old(Snapshot()), steps, orphans)
        && (refused == {} && HeldReleasable(old(Snapshot()), orphans) ==>
              !failed && Snapshot().ipam == old(Snapshot()).ipam - HeldLists(old(Snapshot()), orphans))
      ensures forall o | o in owners :: o in remaining <==> Exists(platform.ccs, o)
      ensures !failed ==> forall o | o in owners && o.cluster !in platform.clusters ::
        Find(platform.ccs, o) == OrphanIn(old(platform.ccs), o)
    {
      failed, remaining, states, steps := false, [], [Snapshot()], [];
      NoOrphanYet(conv, Snapshot(), owners, refused);
      for i := 0 to |owners|
        invariant ipam.internal == old(ipam.internal) || fresh(ipam.internal)
        invariant OrphansSoFar(conv, old(Snapshot()), owners, i, states, steps, refused, remaining, failed, Snapshot())
      {
        var o := owners[i];
        ghost var was, before, stepsBefore, remainingBefore := Snapshot(), states, steps, remaining;
        ghost var step;
        var ok;
        ok, step := HandleClusterConfig(o, o in refused);
        if o.rule in platform.ccs[o.cluster] {
          remaining := remaining + [o];
        }
        if step.Some? {
          states, steps := states + [Snapshot()], steps + [step.value];
        }
        OneMoreOrphanHandled(conv, old(Snapshot()), owners, i, before, stepsBefore, refused, remainingBefore, failed,
                             was, ok, step, states, steps, remaining, Snapshot());
        failed := failed || !ok;
      }
      OrphansDone(conv, old(Snapshot()), owners, states, steps, refused, remaining, failed, Snapshot());
    }

    /** Deletes the ClusterConfig if its cluster is gone. */
    method HandleClusterConfig(o: Owner, refused: bool) returns (ok: bool, ghost step: Option<Step>)
      requires Exists(platform.ccs, o)
      modifies ipam, platform`ccs
      ensures OrphanHandled(conv, old(Snapshot()), o, ok, refused, step, Snapshot()) && o.cluster in platform.ccs
      ensures ipam.internal == old(ipam.internal) || fresh(ipam.internal)
    {
      ok, step := true, None;
      if o.cluster !in platform.clusters {
        ghost var done;
        ok, done := DeleteOrphan(o, refused);
        step := Some(done);
      }
    }

    method DeleteOrphan(o: Owner, refused: bool) returns (ok: bool, ghost step: Step)
      requires o.cluster !in platform.clusters && Exists(platform.ccs, o)
      modifies ipam, platform`ccs
      ensures OrphanDone(conv, old(Snapshot()), o, ok, step, Snapshot())
      ensures OrphanOutcome(old(Snapshot()), o, ok, refused, step)
      ensures ipam.internal == old(ipam.internal) || fresh(ipam.internal)
    {
      ghost var s := Snapshot();
      var cc := platform.ccs[o.cluster][o.rule];
      if cc.finalizer {
        ok := ReleaseAndDelete(o, refused);
        step := ReleaseConfig(o, ok);
        OrphanReleased(conv, s, o, ok, Snapshot());
      } else {
        Delete(o, cc);
        ok, step := true, DeleteConfig(o);
        OrphanDeleted(conv, s, o, Snapshot());
      }
    }

    // ----- Restoring -----

    /** Repairs every relevant cluster from its annotation, as far as the API server lets it. */
    method RepairClusters(relevant: set<string>, refused: set<Owner>)
        returns (failed: bool, ghost states: seq<State>, ghost steps: seq<Step>)
      requires relevant <= platform.clusters.Keys
      modifies platform`ccs
      ensures RepairedSoFar(conv, old(Snapshot()), states, steps, refused, relevant, failed, Snapshot())
      ensures refused == {} ==> !failed
    {
      failed, states, steps := false, [Snapshot()], [];
      NoneRepairedYet(conv, Snapshot(), refused);
      var todo := relevant;
      assert relevant - todo == {};
      while todo != {}
        invariant todo <= relevant
        invariant RepairedSoFar(conv, old(Snapshot()), states, steps, refused, relevant - todo, failed, Snapshot())
        decreases todo
      {
        var cl :| cl in todo;
        ghost var was := Snapshot();
        var ok := RepairOne(cl, refused);
        OneMoreRepaired(conv, old(Snapshot()), states, steps, refused, relevant - todo, failed, was, cl, ok,
                        Snapshot());
        failed := failed || !ok;
        states, steps := states + [Snapshot()], steps + [if ok then RepairCluster(cl) else RepairPartly(cl)];
        OneMoved(relevant, todo, cl);
        todo := todo - {cl};
      }
      assert relevant - todo == relevant;
      RepairsNotRefused(states, steps, refused, failed);
    }

    method RepairOne(cl: string, refused: set<Owner>) returns (ok: bool)
      requires cl in platform.clusters
      modifies platform`ccs
      ensures RepairedTo(old(Snapshot()), cl, ok, Snapshot())
      ensures ok <==> !RepairRefused(old(Snapshot()), cl, refused)
      ensures KeptBut({cl}, old(platform.ccs), platform.ccs)
    {
      var ccs: ClusterConfigs := if cl in platform.ccs then platform.ccs[cl] else map[];
      var ins := CheckClusterConfigsForCluster(platform.clusters[cl], ccs);
      ghost var s := Snapshot();
      var written := Written(ccs, Apply(ccs, ins), RefusedRules(cl, refused));
      ok := written == Apply(ccs, ins);
      CompleteIffNotRefused(s, cl, ins, refused);
      platform.ccs := platform.ccs[cl := written];
      RepairOutcome(s, cl, ins, written, Snapshot());
    }

    /** Restoring the allocator from the platform cluster; `relevant` are the clusters that match
        some rule.  On success these are repaired, no ClusterConfig of a cluster that is gone
        holds the finalizer, and the allocator is the one rebuilt from the ClusterConfigs.  Then
        every held block is registered if and only if nothing was lost of the other clusters.  It
        fails exactly if a repair, a release or the rebuild does; with nothing refused, and orphans
        whose blocks are leaves, only the rebuild can. */
    method RestoreIPAMFromClusterState(relevant: set<string>, refused: set<Owner>)
        returns (failed: bool, ghost states: seq<State>, ghost steps: seq<Step>, ghost repairs: nat)
      requires relevant <= platform.clusters.Keys
      modifies ipam, platform`ccs
      ensures Went(conv, UnmatchedCovered(old(Snapshot()), relevant), old(Snapshot()), states, steps, Snapshot())
      ensures RestoreOutcome(states, steps, repairs, relevant, refused, failed, Snapshot())
      ensures failed <==> SomethingFailed(steps) || RebuildsTo(Snapshot(), relevant, None)
      ensures refused == {} && OrphansReleasable(old(Snapshot())) ==> !SomethingFailed(steps)
      ensures Inv(old(Snapshot())) ==> (failed <==> SomethingFailed(steps) || SomeNestedUnparented(Snapshot()))
      ensures !SomethingFailed(steps) ==> Restored(old(Snapshot()), states, steps, repairs, relevant, Snapshot())
      ensures !failed && Inv(old(Snapshot())) ==>
        (HeldRegistered(Snapshot()) <==> UnmatchedCovered(old(Snapshot()), relevant))
    {
      ghost var s0 := Snapshot();
      failed, states, steps, repairs := PrepareRebuild(relevant, refused);
      ghost var was, before, stepsBefore := Snapshot(), states, steps;
      if failed {
        SafelyFollowsIsFollows(conv, states, steps);
        return;
      }
      failed := RebuildFromConfigs(relevant);
      states, steps := states + [Snapshot()], steps + [RebuildIpam(relevant)];
      RestoreEnds(conv, s0, before, stepsBefore, was, repairs, states, steps, relevant, refused, failed, Snapshot());
    }

    /** The part of a restore before the rebuild: the repairs and then, if they went well, the
        orphans. */
    method PrepareRebuild(relevant: set<string>, refused: set<Owner>)
        returns (failed: bool, ghost states: seq<State>, ghost steps: seq<Step>, ghost repairs: nat)
      requires relevant <= platform.clusters.Keys
      modifies ipam, platform`ccs
      ensures PreparedBy(conv, old(Snapshot()), states, steps, repairs, relevant, refused, failed, Snapshot())
      ensures refused == {} && OrphansReleasable(old(Snapshot())) ==> !failed
    {
      ghost var s0 := Snapshot();
      failed, states, steps := RepairClusters(relevant, refused);
      repairs := |steps|;
      if failed {
        RepairsFailed(conv, s0, states, steps, relevant, refused, Snapshot());
        return;
      }
      ghost var s1, first, firstSteps := Snapshot(), states, steps;
      SameOrphans(s0, s1, relevant);
      ghost var more, moreSteps;
      failed, more, moreSteps := HandleOrphansBut(relevant, refused);
      states, steps := first + more[1..], firstSteps + moreSteps;
      PreparationDone(conv, s0, first, firstSteps, s1, more, moreSteps, states, steps, relevant, refused, failed,
                      Snapshot());
    }

    /** The ClusterConfigs of all other clusters are listed; those whose cluster is gone are
        handled. */
    method HandleOrphansBut(relevant: set<string>, refused: set<Owner>)
        returns (failed: bool, ghost states: seq<State>, ghost steps: seq<Step>)
      requires relevant <= platform.clusters.Keys
      modifies ipam, platform`ccs
      ensures OrphansHandledBy(conv, old(Snapshot()), states, steps, refused, failed, Snapshot())
      ensures refused == {} && OrphansReleasable(old(Snapshot())) ==> !failed
    {
      ghost var s := Snapshot();
      var orphans := ListConfigs(platform.ccs, relevant);
      var remaining;
      failed, remaining, states, steps := HandleOrphanedClusterConfigs(orphans, refused);
      AllAmong(s, orphans, relevant);
      if !failed {
        OrphansHandled(s, Snapshot(), relevant);
      }
    }

    /** A rebuild that fails leaves the allocator as it is. */
    method RebuildFromConfigs(relevant: set<string>) returns (failed: bool)
      requires relevant <= platform.clusters.Keys
      modifies ipam
      ensures RebuildOutcome(old(Snapshot()), relevant, failed, Snapshot().ipam)
      ensures failed ==> ipam.internal == old(ipam.internal)
    {
      var lists: seq<seq<Patch>>, order := CollectHandled(platform.ccs, relevant);
      ghost var s := Snapshot();
      var r, ids := IpamFromClusterConfigs(parents, lists);
      failed := r.None?;
      if r.Some? {
        ipam.internal := r.value;
        assert RebuildsTo(s, relevant, Some(Snapshot().ipam));
      }
      OneOutcome(s, relevant, failed, Snapshot().ipam);
    }
  }

  method CreateConfigs(ccs: ClusterConfigs, creates: seq<(RuleId, ClusterConfig)>) returns (after: ClusterConfigs,
                       ok: bool)
    ensures (after, ok) == CreateAll(ccs, creates)
  {
    after, ok := ccs, true;
    for i := 0 to |creates|
      invariant (after, ok) == CreateAll(ccs, creates[..i])
    {
      assert creates[..i + 1][..i] == creates[..i];
      if creates[i].0 in after {
        ok := false;
      } else {
        after := after[creates[i].0 := creates[i].1];
      }
    }
    assert creates[..|creates|] == creates;
  }

  /** The ClusterConfigs of the clusters not in `skip`, in some order. */
  method ListConfigs(ccs: map<string, ClusterConfigs>, skip: set<string>) returns (owners: seq<Owner>)
    ensures NoDuplicates(owners)
    ensures forall o :: o in owners <==> Exists(ccs, o) && o.cluster !in skip
  {
    owners := [];
    var todo := set cl, r | cl in ccs && r in ccs[cl] && cl !in skip :: Owner(cl, r);
    ghost var all := todo;
    while todo != {}
      invariant todo <= all && NoDuplicates(owners)
      invariant forall o :: o in owners <==> o in all && o !in todo
      decreases todo
    {
      var o :| o in todo;
      todo := todo - {o};
      owners := owners + [o];
    }
  }

  /** The patch lists to rebuild from, in some order. */
  method CollectHandled(ccs: map<string, ClusterConfigs>, relevant: set<string>) returns (lists: seq<seq<Patch>>,
                        ghost order: seq<Owner>)
    ensures Enumerates(order, Handled(ccs, relevant).Keys)
    ensures lists == ListsIn(order, Handled(ccs, relevant))
  {
    lists, order := [], [];
    var all := ListConfigs(ccs, {});
    ghost var handled := Handled(ccs, relevant);
    for i := 0 to |all|
      invariant NoDuplicates(order) && forall o :: o in order <==> o in all[..i] && o in handled
      invariant lists == ListsIn(order, handled)
    {
      var o := all[i];
      assert all[..i + 1] == all[..i] + [o];
      if o.cluster in relevant || ccs[o.cluster][o.rule].finalizer {
        assert o in handled && o !in order;
        lists := lists + [ccs[o.cluster][o.rule].patches];
        order := order + [o];
      }
    }
    assert all[..|all|] == all;
  }
}
