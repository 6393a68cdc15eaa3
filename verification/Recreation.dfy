/** A cluster created under a name that released ClusterConfigs are left of: exactly when its
    first reconcile, which takes their blocks over, does no harm. */
module Recreation {
  import opened Prefixes
  import opened Forest
  import opened GoIpam
  import opened Config
  import opened Chains
  import opened Patches
  import opened Repair
  import opened Release
  import opened RebuildTheorems
  import opened InjectionManagement
  import opened InjectionTheorems
  import opened System
  import opened SystemInvariant
  import opened SystemTheorems

  function HeldOnly(ccs: ClusterConfigs): ClusterConfigs {
    map r | r in ccs && ccs[r].finalizer :: ccs[r]
  }

  /** The state without the cluster's ClusterConfigs that do not have the finalizer. */
  function SetAside(s: State, cl: string): State {
    s.(ccs := s.ccs[cl := HeldOnly(ConfigsOf(s, cl))])
  }

  /** A block that a ClusterConfig without the finalizer still lists. */
  ghost predicate Leftover(s: State, cl: string, r: RuleId, c: Prefix) {
    var ccs := ConfigsOf(s, cl);
    r in ccs && !ccs[r].finalizer && c in BlockSet(ccs[r].patches)
  }

  /** The cluster has not been reconciled yet; but for what is left of its name, all is well. */
  ghost predicate NewUnderOldName(s: State, cl: string) {
    cl in s.clusters && s.clusters[cl] == map[] && ConfigsOk(ConfigsOf(s, cl)) && Inv(SetAside(s, cl))
  }

  /** All leftover blocks are registered, and they overlap nothing that is held, nor each other
      unless they are on one list. */
  ghost predicate ClearToRecreate(s: State, cl: string) {
    forall r, c | Leftover(s, cl, r, c) ::
      && c in s.ipam
      && (forall o, d | Holds(s, o, d) :: !Overlaps(c, d))
      && (forall q, d | Leftover(s, cl, q, d) && q != r :: !Overlaps(c, d))
  }

  lemma AsideHolds(s: State, cl: string)
    ensures forall o, c :: InConfig(SetAside(s, cl), o, c) <==> InConfig(s, o, c)
    ensures forall o, c :: InAnnotation(SetAside(s, cl), o, c) <==> InAnnotation(s, o, c)
    ensures forall o, c :: Holds(SetAside(s, cl), o, c) <==> Holds(s, o, c)
  {
  }

  // ----- What the reconcile takes over -----

  lemma MergedBlocks(ccs: ClusterConfigs, merged: AppliedRules, r: RuleId)
    requires MergedTo(map[], ccs, merged) && r in ccs && ConfigOk(ccs[r])
    ensures RecordedBlocks(merged[r]) == BlockSet(ccs[r].patches)
  {
    var patches, none: Injections := ccs[r].patches, map[];
    assert MergePatches(none, patches) == Some(merged[r]);
    MergeKeepsRecorded(none, patches);
    forall c
      ensures c in RecordedBlocks(merged[r]) <==> c in BlockSet(patches)
    {
      MergedBlock(none, patches, merged[r], c);
    }
  }

  lemma MergedBlock(none: Injections, patches: seq<Patch>, injections: Injections, c: Prefix)
    requires none == map[] && MergePatches(none, patches) == Some(injections)
    requires AllBlockPatches(patches) && DistinctPaths(patches)
    ensures c in RecordedBlocks(injections) <==> c in BlockSet(patches)
  {
    MergeKeepsRecorded(none, patches);
    BlockSetMembers(patches, c);
    if c in RecordedBlocks(injections) {
      var p :| p in injections && injections[p] == Block(c);
      var i :| 0 <= i < |patches| && patches[i].path == p && patches[i].value == Str(injections[p]);
      assert AddsBlock(patches[i]) && BlockOf(patches[i]) == c;
    }
    if i :| 0 <= i < |patches| && AddsBlock(patches[i]) && BlockOf(patches[i]) == c {
      var p := patches[i].path;
      assert HasPath(patches, p) && p in injections;
      var j :| 0 <= j < |patches| && patches[j].path == p && patches[j].value == Str(injections[p]);
      assert i == j;
    }
  }

  /** A reconcile that records nothing but what it has merged. */
  ghost predicate OnlyMerges(s: State, cl: string, rules: seq<Rule>, conv: Conversion, ws: seq<Work>, m: Managed,
                             s': State) {
    ReconcileWith(s, cl, rules, conv, ws, Some(m), s') && m.work.annotation == m.merged && s'.ipam == s.ipam
  }

  /** So it is if every rule has left a ClusterConfig behind, or there is no rule. */
  lemma SkippedRulesMerge(s: State, cl: string, rules: seq<Rule>, conv: Conversion, ws: seq<Work>, m: Managed,
                          s': State)
    requires ReconcileWith(s, cl, rules, conv, ws, Some(m), s')
    requires forall i | 0 <= i < |rules| :: rules[i].id in ConfigsOf(s, cl)
    ensures OnlyMerges(s, cl, rules, conv, ws, m, s')
  {
    AllSkipped(Context(m.merged, s.parents, conv), rules, ws);
  }

  lemma {:induction false} AllSkipped(ctx: Context, rules: seq<Rule>, ws: seq<Work>)
    requires RulesRun(ctx, rules, ws) && forall i | 0 <= i < |rules| :: rules[i].id in ctx.applied
    ensures ws[|rules|].annotation == ws[0].annotation && ws[|rules|].ipam == ws[0].ipam
  {
    if rules != [] {
      var n := |rules| - 1;
      LastStep(ctx, rules, ws);
      AllSkipped(ctx, rules[..n], ws[..n + 1]);
    }
  }

  lemma NothingCreated(ctx: Context, rules: seq<Rule>, ws: seq<Work>)
    requires RulesRun(ctx, rules, ws) && Started(ctx, ws[0]) && NoDuplicates(Ids(rules))
    requires ws[|rules|].annotation == ctx.applied
    ensures ws[|rules|].creates == []
  {
    var creates := ws[|rules|].creates;
    var first := if |creates| > 0 then creates[0].0 else "none";
    RunData(ctx, rules, ws);
    assert |creates| > 0 ==> first in ctx.applied && first !in ctx.applied;
  }

  /** What the cluster holds afterwards. */
  ghost predicate TakenOver(s: State, cl: string, s': State) {
    forall o, c :: Holds(s', o, c) <==> Holds(s, o, c) || (o.cluster == cl && Leftover(s, cl, o.rule, c))
  }

  lemma TakesOver(s: State, cl: string, rules: seq<Rule>, conv: Conversion, ws: seq<Work>, m: Managed, s': State)
    requires cl in s.clusters && s.clusters[cl] == map[] && ConfigsOk(ConfigsOf(s, cl))
    requires NoDuplicates(Ids(rules)) && OnlyMerges(s, cl, rules, conv, ws, m, s')
    ensures TakenOver(s, cl, s')
  {
    NothingCreated(Context(m.merged, s.parents, conv), rules, ws);
    MergedOnly(s, cl, m.merged, m.instruction, s');
  }

  lemma MergedOnly(s: State, cl: string, merged: AppliedRules, ins: Instruction, s': State)
    requires cl in s.clusters && s.clusters[cl] == map[] && ConfigsOk(ConfigsOf(s, cl))
    requires MergedTo(map[], ConfigsOf(s, cl), merged) && CheckSpec(merged, ConfigsOf(s, cl), ins)
    requires s' == s.(clusters := s.clusters[cl := merged], ccs := s.ccs[cl := Apply(ConfigsOf(s, cl), ins)])
    ensures TakenOver(s, cl, s')
  {
    forall o, c
      ensures Holds(s', o, c) <==> Holds(s, o, c) || (o.cluster == cl && Leftover(s, cl, o.rule, c))
    {
      if o.cluster == cl {
        TakesOverList(ConfigsOf(s, cl), merged, ins, o.rule, c);
        BeforeFirst(s, o, c);
        NowListed(s, cl, merged, ins, s', o, c);
      } else {
        OthersHoldTheSame(s, cl, s', o, c);
      }
    }
  }

  lemma OthersHoldTheSame(s: State, cl: string, s': State, o: Owner, c: Prefix)
    requires o.cluster != cl && cl in s'.clusters && s'.clusters == s.clusters[cl := s'.clusters[cl]]
    requires s'.ccs == s.ccs[cl := ConfigsOf(s', cl)]
    ensures Holds(s', o, c) <==> Holds(s, o, c)
  {
  }

  lemma NowListed(s: State, cl: string, merged: AppliedRules, ins: Instruction, s': State, o: Owner, c: Prefix)
    requires o.cluster == cl && cl in s'.clusters && s'.clusters[cl] == merged
    requires cl in s'.ccs && s'.ccs[cl] == Apply(ConfigsOf(s, cl), ins)
    ensures Holds(s', o, c) <==> ListedAfter(ConfigsOf(s, cl), merged, ins, o.rule, c)
  {
  }

  lemma BeforeFirst(s: State, o: Owner, c: Prefix)
    requires o.cluster in s.clusters && s.clusters[o.cluster] == map[]
    ensures Holds(s, o, c) || Leftover(s, o.cluster, o.rule, c) <==>
      o.rule in ConfigsOf(s, o.cluster) && c in BlockSet(ConfigsOf(s, o.cluster)[o.rule].patches)
  {
  }

  /** Either copy lists the block after merging and repairing. */
  ghost predicate ListedAfter(ccs: ClusterConfigs, merged: AppliedRules, ins: Instruction, r: RuleId, c: Prefix) {
    var ccs' := Apply(ccs, ins);
    || (r in merged && c in RecordedBlocks(merged[r]))
    || (r in ccs' && ccs'[r].finalizer && c in BlockSet(ccs'[r].patches))
  }

  lemma TakesOverList(ccs: ClusterConfigs, merged: AppliedRules, ins: Instruction, r: RuleId, c: Prefix)
    requires ConfigsOk(ccs) && MergedTo(map[], ccs, merged) && CheckSpec(merged, ccs, ins)
    ensures ListedAfter(ccs, merged, ins, r, c) <==> r in ccs && c in BlockSet(ccs[r].patches)
  {
    if r in ccs {
      MergedBlocks(ccs, merged, r);
    }
    if r in Apply(ccs, ins) && c in BlockSet(Apply(ccs, ins)[r].patches) {
      RepairedBlocks(merged, ccs, ins, r, c);
    }
  }

  // ----- When that is safe -----

  lemma ClearMeansSafe(s: State, cl: string, s': State)
    requires OwnersDisjoint(s) && HeldRegistered(s) && TakenOver(s, cl, s') && s'.ipam == s.ipam
    requires ClearToRecreate(s, cl)
    ensures OwnersDisjoint(s') && HeldRegistered(s')
  {
    forall o, c, o', c' | Holds(s', o, c) && Holds(s', o', c') && o != o'
      ensures !Overlaps(c, c')
    {
      if !Holds(s, o, c) {
        assert Leftover(s, cl, o.rule, c);
      } else if !Holds(s, o', c') {
        assert Leftover(s, cl, o'.rule, c') && !Overlaps(c', c);
      }
    }
  }

  lemma SafeMeansClear(s: State, cl: string, s': State)
    requires TakenOver(s, cl, s') && s'.ipam == s.ipam && OwnersDisjoint(s') && HeldRegistered(s')
    requires cl in s.clusters && s.clusters[cl] == map[]
    ensures ClearToRecreate(s, cl)
  {
    forall r, c | Leftover(s, cl, r, c)
      ensures c in s.ipam
      ensures forall o, d | Holds(s, o, d) :: !Overlaps(c, d)
      ensures forall q, d | Leftover(s, cl, q, d) && q != r :: !Overlaps(c, d)
    {
      assert Holds(s', Owner(cl, r), c);
      forall o, d | Holds(s, o, d)
        ensures !Overlaps(c, d)
      {
        assert Holds(s', o, d) && o != Owner(cl, r);
      }
      forall q, d | Leftover(s, cl, q, d) && q != r
        ensures !Overlaps(c, d)
      {
        assert Holds(s', Owner(cl, q), d);
      }
    }
  }

  /** The first reconcile of a re-created cluster, if it acquires nothing, leaves the owners disjoint
      and what they hold registered if and only if the leftover lists were clear. */
  lemma RecreationSafeIff(s: State, cl: string, rules: seq<Rule>, conv: Conversion, ws: seq<Work>, m: Managed,
                          s': State)
    requires NewUnderOldName(s, cl) && NoDuplicates(Ids(rules)) && OnlyMerges(s, cl, rules, conv, ws, m, s')
    ensures OwnersDisjoint(s') && HeldRegistered(s') <==> ClearToRecreate(s, cl)
  {
    TakesOver(s, cl, rules, conv, ws, m, s');
    AsideMeansSafe(s, cl);
    if ClearToRecreate(s, cl) {
      ClearMeansSafe(s, cl, s');
    } else if OwnersDisjoint(s') && HeldRegistered(s') {
      SafeMeansClear(s, cl, s');
    }
  }

  lemma AsideMeansSafe(s: State, cl: string)
    requires Inv(SetAside(s, cl))
    ensures OwnersDisjoint(s) && HeldRegistered(s)
  {
    AsideHolds(s, cl);
    InvMeansSafe(SetAside(s, cl));
  }

  // ----- At any later time -----

  /** The step names this cluster or its ClusterConfigs, or takes its lists into a rebuild. */
  predicate Concerns(step: Step, cl: string) {
    match step
    case CreateCluster(c) => c == cl
    case DeleteCluster(c) => c == cl
    case LoseAnnotation(c) => c == cl
    case LoseConfig(o) => o.cluster == cl
    case LosePatch(o, _) => o.cluster == cl
    case SetForeign(o) => o.cluster == cl
    case ClearForeign(o) => o.cluster == cl
    case DeleteConfig(o) => o.cluster == cl
    case Reconcile(c, _) => c == cl
    case ReconcilePartly(c, _) => c == cl
    case ReleaseConfig(o, _) => o.cluster == cl
    case RepairCluster(c) => c == cl
    case RepairPartly(c) => c == cl
    case RebuildIpam(relevant) => cl in relevant
    case ChangeConfig(_) => false
    case Restart(_, relevant) => cl in relevant
  }

  lemma CreationSetsAside(s: State, cl: string, s': State)
    requires Inv(s) && CreateStep(s, cl, s')
    ensures NewUnderOldName(s', cl)
  {
    var t := SetAside(s', cl);
    assert ConfigsOk(ConfigsOf(s, cl)) && ConfigsOf(s', cl) == ConfigsOf(s, cl);
    AsideData(s, cl, t);
    ShrinkInv(s, t);
  }

  lemma AsideData(s: State, cl: string, t: State)
    requires DataOk(s) && cl !in s.clusters
    requires t == SetAside(s.(clusters := s.clusters[cl := map[]]), cl)
    ensures DataOk(t) && HoldsNoMore(s, t)
  {
    forall c | c in t.clusters
      ensures ClusterOk(t.clusters[c], ConfigsOf(t, c))
    {
      assert c != cl ==> ConfigsOf(t, c) == ConfigsOf(s, c) && ClusterOk(s.clusters[c], ConfigsOf(s, c));
    }
    forall c | c in t.ccs
      ensures ConfigsOk(t.ccs[c])
    {
      assert c in s.ccs ==> ConfigsOk(s.ccs[c]);
    }
    forall o, c | InConfig(t, o, c)
      ensures InConfig(s, o, c)
    {
      assert o.cluster != cl ==> ConfigsOf(t, o.cluster) == ConfigsOf(s, o.cluster);
    }
  }

  lemma AsideOther(s: State, cl: string, c: string, ccs: ClusterConfigs)
    requires c != cl
    ensures ConfigsOf(SetAside(s, cl), c) == ConfigsOf(s, c)
    ensures SetAside(s.(ccs := s.ccs[c := ccs]), cl) == SetAside(s, cl).(ccs := SetAside(s, cl).ccs[c := ccs])
  {
    assert ConfigsOf(s.(ccs := s.ccs[c := ccs]), cl) == ConfigsOf(s, cl);
    assert s.ccs[c := ccs][cl := HeldOnly(ConfigsOf(s, cl))] == s.ccs[cl := HeldOnly(ConfigsOf(s, cl))][c := ccs];
  }

  lemma AsideConfig(s: State, cl: string, o: Owner, now: Option<ClusterConfig>)
    requires o.cluster != cl
    ensures HasConfig(SetAside(s, cl), o) <==> HasConfig(s, o)
    ensures HasConfig(s, o) ==> ConfigOf(SetAside(s, cl), o) == ConfigOf(s, o)
    ensures SetAside(WithConfig(s, o, now), cl) == WithConfig(SetAside(s, cl), o, now)
  {
    var ccs := ConfigsOf(s, o.cluster);
    AsideOther(s, cl, o.cluster, match now case None => ccs - {o.rule} case Some(v) => ccs[o.rule := v]);
  }

  /** The step is the same, and as safe, when the leftover lists are set aside. */
  ghost predicate SameAside(conv: Conversion, s: State, cl: string, step: Step, s': State) {
    Next(conv, SetAside(s, cl), step, SetAside(s', cl)) && (SafeStep(s, step) ==> SafeStep(SetAside(s, cl), step))
  }

  lemma OutsideAside(conv: Conversion, s: State, cl: string, step: Step, s': State)
    requires Next(conv, s, step, s') && FromOutside(step) && !Concerns(step, cl)
    ensures SameAside(conv, s, cl, step, s')
  {
    match step
    case CreateCluster(c) => AsideOther(s, cl, c, map[]);
    case DeleteCluster(c) =>
    case LoseAnnotation(c) =>
    case LoseConfig(o) => AsideConfig(s, cl, o, None);
    case LosePatch(o, i) => AsideConfig(s, cl, o, Some(LosingPatch(ConfigOf(s, o), i)));
    case SetForeign(o) => AsideConfig(s, cl, o, Some(ConfigOf(s, o).(foreign := true)));
    case ClearForeign(o) =>
      var cc := ConfigOf(s, o);
      AsideConfig(s, cl, o, if cc.deleting && !cc.finalizer then None else Some(cc.(foreign := false)));
    case DeleteConfig(o) => AsideConfig(s, cl, o, AfterDelete(ConfigOf(s, o)));
  }

  lemma ReconcileAside(conv: Conversion, s: State, cl: string, c: string, rules: seq<Rule>, s': State)
    requires ReconcileStep(s, c, rules, conv, s') && c != cl
    ensures ReconcileStep(SetAside(s, cl), c, rules, conv, SetAside(s', cl))
  {
    var ws, res :| ReconcileWith(s, c, rules, conv, ws, res, s');
    AsideOther(s, cl, c, if res.Some? then AfterReconcile(ConfigsOf(s, c), res.value).0 else map[]);
    assert ReconcileWith(SetAside(s, cl), c, rules, conv, ws, res, SetAside(s', cl));
  }

  lemma RepairAside(s: State, cl: string, c: string, s': State)
    requires RepairStep(s, c, s') && c != cl
    ensures RepairStep(SetAside(s, cl), c, SetAside(s', cl))
  {
    var ins :| CheckSpec(s.clusters[c], ConfigsOf(s, c), ins)
      && s' == s.(ccs := s.ccs[c := Apply(ConfigsOf(s, c), ins)]);
    AsideOther(s, cl, c, Apply(ConfigsOf(s, c), ins));
  }

  lemma PartlyAside(s: State, cl: string, intended: State, c: string, s': State)
    requires PartlyWritten(s, intended, c, s') && c != cl
    ensures PartlyWritten(SetAside(s, cl), SetAside(intended, cl), c, SetAside(s', cl))
  {
    AsideOther(s, cl, c, map[]);
    AsideOther(intended, cl, c, ConfigsOf(s', c));
    AsideOther(s', cl, c, map[]);
    assert ConfigsOf(intended, cl) == ConfigsOf(s', cl);
  }

  lemma ReconcilePartlyAside(conv: Conversion, s: State, cl: string, c: string, rules: seq<Rule>, s': State)
    requires ReconcilePartlyStep(s, c, rules, conv, s') && c != cl
    ensures ReconcilePartlyStep(SetAside(s, cl), c, rules, conv, SetAside(s', cl))
  {
    var intended :| ReconcileStep(s, c, rules, conv, intended) && PartlyWritten(s, intended, c, s');
    ReconcileAside(conv, s, cl, c, rules, intended);
    PartlyAside(s, cl, intended, c, s');
  }

  lemma RepairPartlyAside(s: State, cl: string, c: string, s': State)
    requires RepairPartlyStep(s, c, s') && c != cl
    ensures RepairPartlyStep(SetAside(s, cl), c, SetAside(s', cl))
  {
    var intended :| RepairStep(s, c, intended) && PartlyWritten(s, intended, c, s');
    RepairAside(s, cl, c, intended);
    PartlyAside(s, cl, intended, c, s');
  }

  lemma ReleaseAside(s: State, cl: string, o: Owner, ok: bool, s': State)
    requires ReleaseStep(s, o, ok, s') && o.cluster != cl
    ensures ReleaseStep(SetAside(s, cl), o, ok, SetAside(s', cl))
  {
    var cc := ConfigOf(s, o);
    AsideConfig(s, cl, o, AfterDelete(if ok then cc.(finalizer := false) else cc));
  }

  lemma HandledAside(s: State, cl: string, relevant: set<string>)
    requires cl !in relevant
    ensures Handled(SetAside(s, cl).ccs, relevant) == Handled(s.ccs, relevant)
  {
    var h, h' := Handled(s.ccs, relevant), Handled(SetAside(s, cl).ccs, relevant);
    forall o
      ensures o in h' <==> o in h
      ensures o in h ==> h'[o] == h[o]
    {
      AsideHandles(s, cl, relevant, o);
    }
  }

  lemma AsideHandles(s: State, cl: string, relevant: set<string>, o: Owner)
    requires cl !in relevant
    ensures o in Handled(SetAside(s, cl).ccs, relevant) <==> o in Handled(s.ccs, relevant)
    ensures o in Handled(s.ccs, relevant) ==>
      Handled(SetAside(s, cl).ccs, relevant)[o] == Handled(s.ccs, relevant)[o]
  {
  }

  lemma ReadyAside(s: State, cl: string, relevant: set<string>)
    requires cl !in relevant && ReadyToRebuild(s, relevant)
    ensures ReadyToRebuild(SetAside(s, cl), relevant)
  {
    forall c | c in relevant
      ensures RepairedCluster(SetAside(s, cl), c)
    {
      assert RepairedCluster(s, c) && ConfigsOf(SetAside(s, cl), c) == ConfigsOf(s, c);
    }
  }

  lemma CoveredAside(s: State, cl: string, relevant: set<string>)
    requires UnmatchedCovered(s, relevant)
    ensures UnmatchedCovered(SetAside(s, cl), relevant)
  {
    AsideHolds(s, cl);
    forall c | c in s.clusters && c !in relevant
      ensures CoveredCluster(SetAside(s, cl), c)
    {
      assert CoveredCluster(s, c);
    }
  }

  lemma RebuildsAside(s: State, cl: string, relevant: set<string>, r: Option<Allocator>)
    requires RebuildsTo(s, relevant, r) && cl !in relevant
    ensures RebuildsTo(SetAside(s, cl), relevant, r)
  {
    HandledAside(s, cl, relevant);
  }

  lemma RebuildAside(s: State, cl: string, relevant: set<string>, s': State)
    requires RebuildStep(s, relevant, s') && cl !in relevant
    ensures RebuildStep(SetAside(s, cl), relevant, SetAside(s', cl))
  {
    var r :| RebuildsTo(s, relevant, r) && s' == s.(ipam := if r.Some? then r.value else s.ipam);
    ReadyAside(s, cl, relevant);
    RebuildsAside(s, cl, relevant, r);
  }

  lemma RestartAside(s: State, cl: string, parents: map<string, seq<Prefix>>, relevant: set<string>, s': State)
    requires RestartStep(s, parents, relevant, s') && cl !in relevant && cl in s.clusters
    ensures RestartStep(SetAside(s, cl), parents, relevant, SetAside(s', cl))
  {
    ReadyAside(s, cl, relevant);
    RebuildsAside(s', cl, relevant, Some(s'.ipam));
    RestartedConfigs(s, cl, s');
  }

  lemma RestartedConfigs(s: State, cl: string, s': State)
    requires cl in s.clusters
    requires s'.ccs == WithoutOrphans(s)
    ensures SetAside(s', cl).ccs == WithoutOrphans(SetAside(s, cl))
  {
    assert ConfigsOf(s', cl) == ConfigsOf(s, cl);
  }

  lemma FitsAside(s: State, cl: string, parents: map<string, seq<Prefix>>)
    requires ConfigFits(s, parents)
    ensures ConfigFits(SetAside(s, cl), parents)
  {
    AsideHolds(s, cl);
  }

  lemma CodeAside(conv: Conversion, s: State, cl: string, step: Step, s': State)
    requires Next(conv, s, step, s') && SafeStep(s, step) && !FromOutside(step) && !Concerns(step, cl)
    requires cl in s.clusters
    ensures SameAside(conv, s, cl, step, s')
  {
    match step
    case Reconcile(c, rules) => ReconcileAside(conv, s, cl, c, rules, s');
    case ReconcilePartly(c, rules) => ReconcilePartlyAside(conv, s, cl, c, rules, s');
    case ReleaseConfig(o, ok) =>
      ReleaseAside(s, cl, o, ok, s');
      AsideConfig(s, cl, o, None);
    case RepairCluster(c) => RepairAside(s, cl, c, s');
    case RepairPartly(c) => RepairPartlyAside(s, cl, c, s');
    case RebuildIpam(relevant) =>
      RebuildAside(s, cl, relevant, s');
      CoveredAside(s, cl, relevant);
    case ChangeConfig(parents) => FitsAside(s, cl, parents);
    case Restart(parents, relevant) =>
      RestartAside(s, cl, parents, relevant, s');
      CoveredAside(s, cl, relevant);
      FitsAside(s, cl, parents);
  }

  /** Every safe step that does not concern the cluster leaves it as it is. */
  lemma StaysNew(conv: Conversion, s: State, cl: string, step: Step, s': State)
    requires NewUnderOldName(s, cl) && Next(conv, s, step, s') && SafeStep(s, step) && !Concerns(step, cl)
    ensures NewUnderOldName(s', cl)
  {
    if FromOutside(step) {
      OutsideAside(conv, s, cl, step, s');
      OutsideKeeps(conv, s, cl, step, s');
    } else {
      CodeAside(conv, s, cl, step, s');
      CodeKeeps(conv, s, cl, step, s');
    }
    NextInv(conv, SetAside(s, cl), step, SetAside(s', cl));
  }

  ghost predicate KeepsCluster(s: State, cl: string, s': State) {
    && cl in s.clusters && cl in s'.clusters && s'.clusters[cl] == s.clusters[cl]
    && ConfigsOf(s', cl) == ConfigsOf(s, cl)
  }

  lemma OutsideKeeps(conv: Conversion, s: State, cl: string, step: Step, s': State)
    requires Next(conv, s, step, s') && FromOutside(step) && cl in s.clusters && !Concerns(step, cl)
    ensures KeepsCluster(s, cl, s')
  {
  }

  lemma CodeKeeps(conv: Conversion, s: State, cl: string, step: Step, s': State)
    requires Next(conv, s, step, s') && !FromOutside(step) && cl in s.clusters && !Concerns(step, cl)
    ensures KeepsCluster(s, cl, s')
  {
    if step.Reconcile? || step.ReconcilePartly? || step.RepairCluster? || step.RepairPartly? {
      OtherClusterKeeps(conv, s, cl, step, s');
    } else {
      IpamStepKeeps(conv, s, cl, step, s');
    }
  }

  lemma OtherClusterKeeps(conv: Conversion, s: State, cl: string, step: Step, s': State)
    requires step.Reconcile? || step.ReconcilePartly? || step.RepairCluster? || step.RepairPartly?
    requires Next(conv, s, step, s') && cl in s.clusters && !Concerns(step, cl)
    ensures KeepsCluster(s, cl, s')
  {
    match step
    case Reconcile(c, rules) => ReconcileKeepsOthers(conv, s, c, rules, s', cl);
    case ReconcilePartly(c, rules) => ReconcilePartlyKeepsOthers(conv, s, c, rules, s', cl);
    case RepairCluster(c) => RepairKeepsOthers(s, c, s', cl);
    case RepairPartly(c) => RepairPartlyKeepsOthers(s, c, s', cl);
  }

  lemma ReconcilePartlyKeepsOthers(conv: Conversion, s: State, c: string, rules: seq<Rule>, s': State, cl: string)
    requires ReconcilePartlyStep(s, c, rules, conv, s') && cl in s.clusters && c != cl
    ensures KeepsCluster(s, cl, s')
  {
    var intended :| ReconcileStep(s, c, rules, conv, intended) && PartlyWritten(s, intended, c, s');
    ReconcileKeepsOthers(conv, s, c, rules, intended, cl);
  }

  lemma RepairKeepsOthers(s: State, c: string, s': State, cl: string)
    requires RepairStep(s, c, s') && cl in s.clusters && c != cl
    ensures KeepsCluster(s, cl, s')
  {
  }

  lemma RepairPartlyKeepsOthers(s: State, c: string, s': State, cl: string)
    requires RepairPartlyStep(s, c, s') && cl in s.clusters && c != cl
    ensures KeepsCluster(s, cl, s')
  {
    var intended :| RepairStep(s, c, intended) && PartlyWritten(s, intended, c, s');
    RepairKeepsOthers(s, c, intended, cl);
  }

  lemma ReconcileKeepsOthers(conv: Conversion, s: State, c: string, rules: seq<Rule>, s': State, cl: string)
    requires ReconcileStep(s, c, rules, conv, s') && cl in s.clusters && c != cl
    ensures KeepsCluster(s, cl, s')
  {
  }

  lemma IpamStepKeeps(conv: Conversion, s: State, cl: string, step: Step, s': State)
    requires step.ReleaseConfig? || step.RebuildIpam? || step.ChangeConfig? || step.Restart?
    requires Next(conv, s, step, s') && cl in s.clusters && !Concerns(step, cl)
    ensures KeepsCluster(s, cl, s')
  {
  }

  /** A cluster is created in a state that satisfies the invariant, under whatever name; after any
      safe steps that do not concern it, the exact condition says whether its first reconcile is
      safe. */
  lemma RecreatedLater(conv: Conversion, s: State, states: seq<State>, steps: seq<Step>, cl: string, rules: seq<Rule>,
                       ws: seq<Work>, m: Managed, s': State)
    requires Inv(s) && SafelyFollows(conv, states, steps) && CreateStep(s, cl, states[0])
    requires forall i | 0 <= i < |steps| :: !Concerns(steps[i], cl)
    requires NoDuplicates(Ids(rules)) && OnlyMerges(states[|steps|], cl, rules, conv, ws, m, s')
    ensures OwnersDisjoint(s') && HeldRegistered(s') <==> ClearToRecreate(states[|steps|], cl)
  {
    CreationSetsAside(s, cl, states[0]);
    NewThroughout(conv, states, steps, cl, |steps|);
    RecreationSafeIff(states[|steps|], cl, rules, conv, ws, m, s');
  }

  lemma {:induction false} NewThroughout(conv: Conversion, states: seq<State>, steps: seq<Step>, cl: string, i: nat)
    requires SafelyFollows(conv, states, steps) && NewUnderOldName(states[0], cl) && i < |states|
    requires forall j | 0 <= j < |steps| :: !Concerns(steps[j], cl)
    ensures NewUnderOldName(states[i], cl)
  {
    if i > 0 {
      NewThroughout(conv, states, steps, cl, i - 1);
      StepOfSafe(conv, states, steps, i - 1);
      StaysNew(conv, states[i - 1], cl, steps[i - 1], states[i]);
    }
  }
}
