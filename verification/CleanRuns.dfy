/** Runs after which nothing is left over, so that a rebuild returns exactly the allocator that
    is live.  Left over are blocks that are registered but recorded nowhere. */
module CleanRuns {
  import opened Prefixes
  import opened Forest
  import opened GoIpam
  import opened Chains
  import opened Config
  import opened ConfigValidation
  import opened Patches
  import opened Generation
  import opened GenerationTheorems
  import opened Repair
  import Release
  import opened Rebuild
  import opened RebuildTheorems
  import opened InjectionManagement
  import opened InjectionTheorems
  import opened System
  import opened SystemInvariant
  import opened ReconcileInvariant
  import opened SystemTheorems

  // ----- Which steps are clean -----

  /** The rule has, once its paths are normalised, a path for each injection and none twice. */
  predicate WellPathed(conv: Conversion, rule: Rule) {
    var injs := NormRule(conv, rule).injections;
    HavePaths(injs) && NoDuplicates(AllPaths(injs))
  }

  predicate NoLocalParents(rule: Rule) {
    forall i | 0 <= i < |rule.injections| :: rule.injections[i].id == ""
  }

  /** A rule with local parents does not fail halfway. */
  ghost predicate CleanRule(conv: Conversion, w: Work, rule: Rule, w': Work) {
    WellPathed(conv, rule) && (NoLocalParents(rule) || rule.id in w'.annotation || w'.ipam == w.ipam)
  }

  ghost predicate CleanReconcile(s: State, cl: string, rules: seq<Rule>, conv: Conversion, s': State) {
    exists ws, res :: ReconcileWith(s, cl, rules, conv, ws, res, s')
      && (res.Some? ==> forall i | 0 <= i < |rules| :: CleanRule(conv, ws[i], rules[i], ws[i + 1]))
  }

  /** What one copy has not been told, the other one has. */
  ghost predicate CleanReconcilePartly(s: State, cl: string, rules: seq<Rule>, conv: Conversion, s': State) {
    exists intended :: CleanReconcile(s, cl, rules, conv, intended) && PartlyWritten(s, intended, cl, s')
      && HoldsNoLess(intended, s')
  }

  /** The owner's patch list is not nested, and its blocks lie under registered parents. */
  ghost predicate FlatUnderParents(s: State, o: Owner) {
    && (forall c, d | InConfig(s, o, c) && InConfig(s, o, d) && c != d :: !Overlaps(c, d))
    && (forall c | InConfig(s, o, c) :: exists p :: IsParent(s.parents, p) && p in s.ipam && Overlaps(p, c))
  }

  /** What is lost in one copy is still in the other, failed rules had no local parents, what is
      released is not nested, and parents are only added. */
  ghost predicate CleanStep(conv: Conversion, s: State, step: Step, s': State) {
    match step
    case DeleteCluster(cl) => CoveredCluster(s, cl)
    case LoseAnnotation(cl) => CoveredCluster(s, cl)
    case LoseConfig(o) => forall c | InConfig(s, o, c) :: InAnnotation(s, o, c)
    case LosePatch(o, i) => forall c | InConfig(s, o, c) :: InConfig(s', o, c) || InAnnotation(s, o, c)
    case Reconcile(cl, rules) => CleanReconcile(s, cl, rules, conv, s')
    case ReconcilePartly(cl, rules) => CleanReconcilePartly(s, cl, rules, conv, s')
    case ReleaseConfig(o, ok) => FlatUnderParents(s, o)
    case ChangeConfig(parents) => forall p | IsParent(s.parents, p) :: IsParent(parents, p)
    case _ => true
  }

  ghost function CleanNextOf(conv: Conversion): (State, Step, State) -> bool {
    (s, step, s') => Next(conv, s, step, s') && SafeStep(s, step) && CleanStep(conv, s, step, s')
  }

  ghost predicate CleanRun(conv: Conversion, states: seq<State>, steps: seq<Step>) {
    Chain(CleanNextOf(conv), states, steps) && Init(states[0])
  }

  /** Nothing is left over, and no owner holds nested blocks outside all parents. */
  ghost predicate Clean(s: State) {
    Inv(s) && NoneLeftOver(s) && NothingLoose(s)
  }

  ghost predicate NothingLoose(s: State) {
    forall o, c, d | Holds(s, o, c) && Holds(s, o, d) && c != d && Overlaps(c, d) ::
      UnderParent(s, c) || UnderParent(s, d)
  }

  // ----- One rule -----

  ghost predicate HoldsNoLess(s: State, s': State) {
    forall o, c | Holds(s, o, c) :: Holds(s', o, c)
  }

  lemma {:induction false} HostsAreParents(a: Allocator, injs: seq<Injection>, parents: map<string, seq<Prefix>>,
                                           trace: seq<Pick>)
    requires |trace| <= |injs| && ValidTrace(a, injs, parents, trace)
    requires forall i | 0 <= i < |injs| :: injs[i].id == ""
    requires forall c | c in Blocks(trace) :: !IsParent(parents, c)
    ensures HostsFrom(a, trace)
  {
    if trace != [] {
      var n := |trace| - 1;
      HostsAreParents(a, injs, parents, trace[..n]);
      LastHost(a, injs, parents, trace);
      assert forall k | 0 <= k < n :: trace[..n][k] == trace[k];
    }
  }

  lemma LastHost(a: Allocator, injs: seq<Injection>, parents: map<string, seq<Prefix>>, trace: seq<Pick>)
    requires trace != [] && |trace| <= |injs| && ValidTrace(a, injs, parents, trace)
    requires forall i | 0 <= i < |injs| :: injs[i].id == ""
    requires forall c | c in Blocks(trace) :: !IsParent(parents, c)
    ensures trace[|trace| - 1].host in a
  {
    var n := |trace| - 1;
    var pick, now := trace[n], StateAfter(a, trace[..n]);
    NoLocals(injs, trace[..n]);
    CandidateOrigin(pick.ids, LocalsAfter(injs, trace[..n]), parents, now, pick.host);
    StateAfterKeys(a, injs, parents, trace[..n]);
  }

  lemma {:induction false} NoLocals(injs: seq<Injection>, trace: seq<Pick>)
    requires |trace| <= |injs| && forall i | 0 <= i < |injs| :: injs[i].id == ""
    ensures LocalsAfter(injs, trace) == map[]
  {
    if trace != [] {
      NoLocals(injs, trace[..|trace| - 1]);
    }
  }

  /** Every block of a successful rule is recorded. */
  lemma AllBlocksRecorded(injs: seq<Injection>, trace: seq<Pick>, c: Prefix)
    requires |trace| == |injs| && HavePaths(injs) && NoDuplicates(AllPaths(injs)) && c in Blocks(trace)
    ensures c in RecordedBlocks(AsInjections(RawAfter(injs, trace)))
  {
    BlocksMembers(trace, c);
    var k :| 0 <= k < |trace| && trace[k].block == c;
    var p := GetPaths(injs[k])[0];
    assert injs[..|trace|] == injs;
    RawAt(injs, trace, k, p);
    assert AsInjections(RawAfter(injs, trace))[p] == Block(c);
  }

  lemma SuccessIsClean(s: State, cl: string, w: Work, rule: Rule, injs: seq<Injection>, trace: seq<Pick>, w': Work)
    requires cl in s.clusters && NoneLeftOver(During(s, cl, w)) && rule.id !in w.annotation
    requires |trace| == |injs| && ValidTrace(w.ipam, injs, s.parents, trace) && HavePaths(injs)
    requires NoDuplicates(AllPaths(injs))
    requires w'.ipam == StateAfter(w.ipam, trace)
    requires w'.annotation == w.annotation[rule.id := AsInjections(RawAfter(injs, trace))]
    ensures NoneLeftOver(During(s, cl, w'))
  {
    var was, now := During(s, cl, w), During(s, cl, w');
    StateAfterKeys(w.ipam, injs, s.parents, trace);
    RecordingHoldsNoLess(s, cl, w, rule.id, AsInjections(RawAfter(injs, trace)), w');
    forall c | c in now.ipam && !IsParent(s.parents, c)
      ensures exists o :: Holds(now, o, c)
    {
      if c in w.ipam {
        var o :| Holds(was, o, c);
        assert Holds(now, o, c);
      } else {
        AllBlocksRecorded(injs, trace, c);
        assert Holds(now, Owner(cl, rule.id), c);
      }
    }
  }

  lemma RecordingHoldsNoLess(s: State, cl: string, w: Work, r: RuleId, injections: Injections, w': Work)
    requires cl in s.clusters && r !in w.annotation && w'.annotation == w.annotation[r := injections]
    ensures HoldsNoLess(During(s, cl, w), During(s, cl, w'))
    ensures forall c | c in RecordedBlocks(injections) :: InAnnotation(During(s, cl, w'), Owner(cl, r), c)
  {
  }

  lemma AllLinked(s: State)
    requires Inv(s) && NoneLeftOver(s)
    ensures LinksRegistered(s.ipam)
  {
    var k :| Tracked(s, k);
    assert k == s.ipam.Keys;
    TreeOfAll(s.ipam);
  }

  lemma NewBlocksPlaced(s: State, injs: seq<Injection>, trace: seq<Pick>) returns (k: set<Prefix>)
    requires Inv(s) && |trace| <= |injs| && ValidTrace(s.ipam, injs, s.parents, trace)
    ensures AllPlaced(k, s.parents, Blocks(trace)) && forall c | c in Blocks(trace) :: !IsParent(s.parents, c)
  {
    k :| Tracked(s, k);
    TracePlaced(s.ipam, k, injs, s.parents, trace);
    forall c | c in Blocks(trace)
      ensures !IsParent(s.parents, c)
    {
      PlacedIsNoParent(k, s.parents, c);
    }
  }

  lemma FailureIsClean(s: State, cl: string, ctx: Context, w: Work, rule: Rule, trace: seq<Pick>, b: Allocator)
    requires cl in s.clusters && ctx.parents == s.parents && Inv(During(s, cl, w)) && NoneLeftOver(During(s, cl, w))
    requires GenerateSpec(w.ipam, NormRule(ctx.conv, rule).injections, ctx.parents, trace, None, b)
    requires WellPathed(ctx.conv, rule) && NoLocalParents(rule)
    ensures b == w.ipam
  {
    var injs := NormRule(ctx.conv, rule).injections;
    AllLinked(During(s, cl, w));
    var k := NewBlocksPlaced(During(s, cl, w), injs, trace);
    HostsAreParents(w.ipam, injs, ctx.parents, trace);
    LinkedMeansNoOldChildren(w.ipam, injs, ctx.parents, trace);
    RollbackRestores(w.ipam, injs, ctx.parents, trace, b);
  }

  lemma RuleIsClean(s: State, cl: string, ctx: Context, w: Work, rule: Rule, w': Work)
    requires cl in s.clusters && ctx.parents == s.parents && Inv(During(s, cl, w)) && NoneLeftOver(During(s, cl, w))
    requires RuleStep(ctx, w, rule, w') && CleanRule(ctx.conv, w, rule, w')
    requires rule.id in ctx.applied || rule.id !in w.annotation
    ensures NoneLeftOver(During(s, cl, w'))
  {
    if w'.ipam == w.ipam && w'.annotation == w.annotation {
      assert During(s, cl, w') == During(s, cl, w);
    } else {
      var injs := NormRule(ctx.conv, rule).injections;
      var trace, raw :| GenerateSpec(w.ipam, injs, ctx.parents, trace, raw, w'.ipam)
        && Recorded(ctx, w, rule, raw, w');
      match raw {
        case None =>
          FailureIsClean(s, cl, ctx, w, rule, trace, w'.ipam);
        case Some(m) =>
          RecordedFields(ctx, w, rule, m, w');
          SuccessIsClean(s, cl, w, rule, injs, trace, w');
      }
    }
  }

  lemma {:induction false} RulesAreClean(s: State, cl: string, ctx: Context, rules: seq<Rule>, ws: seq<Work>)
    requires cl in s.clusters && ctx.parents == s.parents && NoDuplicates(Ids(rules))
    requires forall r | r in ConfigsOf(s, cl) :: r in ctx.applied
    requires RulesRun(ctx, rules, ws) && Started(ctx, ws[0]) && Inv(During(s, cl, ws[0]))
    requires NoneLeftOver(During(s, cl, ws[0]))
    requires forall i | 0 <= i < |rules| :: CleanRule(ctx.conv, ws[i], rules[i], ws[i + 1])
    ensures NoneLeftOver(During(s, cl, ws[|rules|]))
  {
    if rules != [] {
      var n := |rules| - 1;
      LastStep(ctx, rules, ws);
      DistinctInit(rules);
      forall i | 0 <= i < n
        ensures CleanRule(ctx.conv, ws[..n + 1][i], rules[..n][i], ws[..n + 1][i + 1])
      {
      }
      RulesAreClean(s, cl, ctx, rules[..n], ws[..n + 1]);
      RulesInv(s, cl, ctx, rules[..n], ws[..n + 1]);
      RunData(ctx, rules[..n], ws[..n + 1]);
      RuleIsClean(s, cl, ctx, ws[n], rules[n], ws[n + 1]);
    }
  }

  // ----- A reconcile -----

  lemma StillNoneLeft(s: State, s': State)
    requires NoneLeftOver(s) && HoldsNoLess(s, s') && s'.parents == s.parents && s'.ipam.Keys <= s.ipam.Keys
    ensures NoneLeftOver(s')
  {
    forall c | c in s'.ipam && !IsParent(s'.parents, c)
      ensures exists o :: Holds(s', o, c)
    {
      var o :| Holds(s, o, c);
      assert Holds(s', o, c);
    }
  }

  /** Annotation values and patches of the cluster are kept, the rest is as before. */
  ghost predicate RecordsKept(s: State, cl: string, s': State) {
    && cl in s.clusters && cl in s'.clusters
    && s' == s.(ipam := s'.ipam, clusters := s.clusters[cl := s'.clusters[cl]], ccs := s.ccs[cl := ConfigsOf(s', cl)])
    && (forall r, p | r in s.clusters[cl] && p in s.clusters[cl][r] ::
          r in s'.clusters[cl] && p in s'.clusters[cl][r] && s'.clusters[cl][r][p] == s.clusters[cl][r][p])
    && (forall r, x | r in ConfigsOf(s, cl) && x in ConfigsOf(s, cl)[r].patches ::
          r in ConfigsOf(s', cl) && x in ConfigsOf(s', cl)[r].patches)
    && AllHeld(ConfigsOf(s', cl))
  }

  lemma RecordsKeptHold(s: State, cl: string, s': State)
    requires RecordsKept(s, cl, s')
    ensures HoldsNoLess(s, s')
  {
    forall o, c | Holds(s, o, c)
      ensures Holds(s', o, c)
    {
      if o.cluster == cl {
        if InAnnotation(s, o, c) {
          var p :| p in s.clusters[cl][o.rule] && s.clusters[cl][o.rule][p] == Block(c);
          assert s'.clusters[cl][o.rule][p] == Block(c);
          assert InAnnotation(s', o, c);
        } else {
          ConfigBlocksKept(s, cl, s', o, c);
        }
      } else {
        assert HasConfig(s, o) ==> HasConfig(s', o) && ConfigOf(s', o) == ConfigOf(s, o);
      }
    }
  }

  lemma ConfigBlocksKept(s: State, cl: string, s': State, o: Owner, c: Prefix)
    requires RecordsKept(s, cl, s') && o.cluster == cl && InConfig(s, o, c)
    ensures InConfig(s', o, c)
  {
    var was := s.ccs[cl][o.rule].patches;
    BlockSetMembers(was, c);
    var i :| 0 <= i < |was| && AddsBlock(was[i]) && BlockOf(was[i]) == c;
    assert was[i] in ConfigsOf(s, cl)[o.rule].patches;
    KeptPatchesKeepBlocks(was, ConfigsOf(s', cl)[o.rule].patches);
  }

  lemma MergedAndRepairedKeeps(s: State, cl: string, merged: AppliedRules, ins: Instruction)
    requires cl in s.clusters && AllHeld(ConfigsOf(s, cl))
    requires MergedTo(s.clusters[cl], ConfigsOf(s, cl), merged) && CheckSpec(merged, ConfigsOf(s, cl), ins)
    ensures RecordsKept(s, cl, Repaired(s, cl, merged, ins))
  {
    MergeKeepsValues(s.clusters[cl], ConfigsOf(s, cl), merged);
    RepairKeepsHeld(merged, ConfigsOf(s, cl), ins);
  }

  lemma MergeKeepsValues(applied: AppliedRules, ccs: ClusterConfigs, merged: AppliedRules)
    requires MergedTo(applied, ccs, merged)
    ensures forall r, p | r in applied && p in applied[r] ::
      r in merged && p in merged[r] && merged[r][p] == applied[r][p]
  {
    forall r, p | r in applied && p in applied[r]
      ensures r in merged && p in merged[r] && merged[r][p] == applied[r][p]
    {
      MergeKeepsRecorded(applied[r], if r in ccs then ccs[r].patches else []);
    }
  }

  lemma RepairKeepsHeld(applied: AppliedRules, ccs: ClusterConfigs, ins: Instruction)
    requires CheckSpec(applied, ccs, ins) && AllHeld(ccs)
    ensures AllHeld(Apply(ccs, ins))
    ensures forall r, x | r in ccs && x in ccs[r].patches :: r in Apply(ccs, ins) && x in Apply(ccs, ins)[r].patches
  {
    forall r | r in Apply(ccs, ins)
      ensures Apply(ccs, ins)[r].finalizer
    {
      RepairRestoresFinalizer(applied, ccs, ins, r);
    }
    forall r, x | r in ccs && x in ccs[r].patches
      ensures r in Apply(ccs, ins) && x in Apply(ccs, ins)[r].patches
    {
      RepairKeepsPatches(applied, ccs, ins, r, x);
    }
  }

  lemma CreatingKeeps(s: State, cl: string, w: Work, s': State)
    requires DataOk(s) && cl in s.clusters && s.clusters[cl] == w.annotation && CreatesOk(w)
    requires s' == s.(ccs := s.ccs[cl := CreateAll(ConfigsOf(s, cl), w.creates).0])
    ensures RecordsKept(s, cl, s')
  {
    CreateKeeps(ConfigsOf(s, cl), w.creates);
    ClusterData(s, cl);
    forall r | r in ConfigsOf(s', cl)
      ensures ConfigsOf(s', cl)[r].finalizer
    {
      CreatedConfig(w.annotation, ConfigsOf(s, cl), w, r);
    }
    assert s'.clusters == s.clusters && s.clusters[cl := s'.clusters[cl]] == s.clusters;
  }

  lemma MergedAndRepairedClean(s: State, cl: string, merged: AppliedRules, ins: Instruction)
    requires Inv(s) && NoneLeftOver(s) && cl in s.clusters
    requires MergedTo(s.clusters[cl], ConfigsOf(s, cl), merged) && CheckSpec(merged, ConfigsOf(s, cl), ins)
    ensures Inv(Repaired(s, cl, merged, ins)) && NoneLeftOver(Repaired(s, cl, merged, ins))
  {
    MergedAndRepairedInv(s, cl, merged, ins);
    ClusterData(s, cl);
    MergedAndRepairedKeeps(s, cl, merged, ins);
    RecordsKeptHold(s, cl, Repaired(s, cl, merged, ins));
    StillNoneLeft(s, Repaired(s, cl, merged, ins));
  }

  lemma ReconcileIsClean(s: State, cl: string, rules: seq<Rule>, conv: Conversion, s': State)
    requires Inv(s) && NoneLeftOver(s) && NoDuplicates(Ids(rules)) && CleanReconcile(s, cl, rules, conv, s')
    ensures NoneLeftOver(s')
  {
    var ws, res :| ReconcileWith(s, cl, rules, conv, ws, res, s')
      && (res.Some? ==> forall i | 0 <= i < |rules| :: CleanRule(conv, ws[i], rules[i], ws[i + 1]));
    if res.Some? {
      var m := res.value;
      var s2 := Repaired(s, cl, m.merged, m.instruction);
      MergedAndRepairedClean(s, cl, m.merged, m.instruction);
      RepairedRules(m.merged, ConfigsOf(s, cl), m.instruction);
      ReconciledFields(s, cl, m, s');
      RulesAndCreatesAreClean(s2, cl, Context(m.merged, s.parents, conv), rules, ws, s');
    }
  }

  lemma RulesAndCreatesAreClean(s: State, cl: string, ctx: Context, rules: seq<Rule>, ws: seq<Work>, s': State)
    requires Inv(s) && NoneLeftOver(s) && cl in s.clusters && s.clusters[cl] == ctx.applied && ctx.parents == s.parents
    requires NoDuplicates(Ids(rules)) && forall r | r in ConfigsOf(s, cl) :: r in ctx.applied
    requires RulesRun(ctx, rules, ws) && Started(ctx, ws[0]) && ws[0].ipam == s.ipam
    requires forall i | 0 <= i < |rules| :: CleanRule(ctx.conv, ws[i], rules[i], ws[i + 1])
    requires s'.parents == s.parents && s'.ipam == ws[|rules|].ipam
    requires s'.clusters == s.clusters[cl := ws[|rules|].annotation]
    requires s'.ccs == s.ccs[cl := CreateAll(ConfigsOf(s, cl), ws[|rules|].creates).0]
    ensures NoneLeftOver(s')
  {
    AllRulesAreClean(s, cl, ctx, rules, ws);
    AllRulesInv(s, cl, ctx, rules, ws);
    RunData(ctx, rules, ws);
    CreatesAreClean(During(s, cl, ws[|rules|]), cl, ws[|rules|], s');
  }

  lemma AllRulesAreClean(s: State, cl: string, ctx: Context, rules: seq<Rule>, ws: seq<Work>)
    requires Inv(s) && NoneLeftOver(s) && cl in s.clusters && s.clusters[cl] == ctx.applied && ctx.parents == s.parents
    requires NoDuplicates(Ids(rules)) && forall r | r in ConfigsOf(s, cl) :: r in ctx.applied
    requires RulesRun(ctx, rules, ws) && Started(ctx, ws[0]) && ws[0].ipam == s.ipam
    requires forall i | 0 <= i < |rules| :: CleanRule(ctx.conv, ws[i], rules[i], ws[i + 1])
    ensures NoneLeftOver(During(s, cl, ws[|rules|]))
  {
    assert During(s, cl, ws[0]) == s;
    RulesAreClean(s, cl, ctx, rules, ws);
  }

  lemma CreatesAreClean(s: State, cl: string, w: Work, s': State)
    requires DataOk(s) && NoneLeftOver(s) && cl in s.clusters && s.clusters[cl] == w.annotation && CreatesOk(w)
    requires s' == s.(ccs := s.ccs[cl := CreateAll(ConfigsOf(s, cl), w.creates).0])
    ensures NoneLeftOver(s')
  {
    CreatingKeeps(s, cl, w, s');
    RecordsKeptHold(s, cl, s');
    StillNoneLeft(s, s');
  }

  // ----- Releasing -----

  /** Blocks on a list that is not nested, under registered parents, can all be released. */
  lemma FlatIsLeaves(s: State, o: Owner)
    requires Inv(s) && NoneLeftOver(s) && HasConfig(s, o) && ConfigOf(s, o).finalizer && o.cluster !in s.clusters
    requires FlatUnderParents(s, o)
    ensures Release.ListedLeaves(s.ipam, BlockSet(ConfigOf(s, o).patches))
  {
    var listed := BlockSet(ConfigOf(s, o).patches);
    var k :| Tracked(s, k);
    AllLinked(s);
    assert k == s.ipam.Keys;
    forall c | c in listed && c in s.ipam
      ensures s.ipam[c].Some? && s.ipam[c].value in s.ipam && s.ipam[c].value !in listed
    {
      LinkOfListed(s, k, o, c);
    }
    forall x, c | x in s.ipam && c in listed
      ensures s.ipam[x] != Some(c)
    {
      ListedHasNoChild(s, k, o, x, c);
    }
  }

  lemma LinkOfListed(s: State, k: set<Prefix>, o: Owner, c: Prefix)
    requires PlacedOk(s) && Tracked(s, k) && k == s.ipam.Keys && FlatUnderParents(s, o) && InConfig(s, o, c)
    ensures c in s.ipam && s.ipam[c].Some? && s.ipam[c].value in s.ipam && !InConfig(s, o, s.ipam[c].value)
  {
    assert Holds(s, o, c);
    var p :| IsParent(s.parents, p) && p in s.ipam && Overlaps(p, c);
    TreeLink(s.ipam, k, c);
    assert StrictlyCovers(p, c) && p in k;
    var t := s.ipam[c].value;
    assert StrictlyCovers(t, c) && Overlaps(t, c);
  }

  lemma ListedHasNoChild(s: State, k: set<Prefix>, o: Owner, x: Prefix, c: Prefix)
    requires Inv(s) && NoneLeftOver(s) && Tracked(s, k) && k == s.ipam.Keys && FlatUnderParents(s, o)
    requires InConfig(s, o, c) && o.cluster !in s.clusters && x in s.ipam
    ensures s.ipam[x] != Some(c)
  {
    TreeLink(s.ipam, k, x);
    NothingBelowListed(s, o, x, c);
  }

  lemma NothingBelowListed(s: State, o: Owner, x: Prefix, c: Prefix)
    requires Inv(s) && NoneLeftOver(s) && FlatUnderParents(s, o)
    requires InConfig(s, o, c) && o.cluster !in s.clusters && x in s.ipam
    ensures !StrictlyCovers(c, x)
  {
    assert Holds(s, o, c);
    if IsParent(s.parents, x) {
      assert Overlaps(x, c) ==> StrictlyCovers(x, c);
    } else {
      var o' :| Holds(s, o', x);
      if o' == o {
        assert InConfig(s, o, x);
      }
      assert c != x ==> !Overlaps(c, x);
    }
  }

  lemma ReleaseIsClean(s: State, o: Owner, ok: bool, s': State)
    requires Inv(s) && NoneLeftOver(s) && ReleaseStep(s, o, ok, s') && SafeStep(s, ReleaseConfig(o, ok))
    requires FlatUnderParents(s, o)
    ensures NoneLeftOver(s')
  {
    var cc := ConfigOf(s, o);
    HeldIfExisting(s, o);
    ListedIsBlockSet(cc.patches);
    if !ok {
      StillNoneLeft(s, s') by {
        UnreleasedHolds(s, o, cc, s');
      }
    } else if cc.finalizer {
      FlatIsLeaves(s, o);
      Release.ReleaseExact(s.ipam, cc.patches, s'.ipam);
      ReleaseFrees(s, o, s');
      OthersStillHold(s, o, cc, s');
    } else {
      Release.ReleaseFrame(s.ipam, cc.patches, s'.ipam);
      UnreleasedHolds(s, o, cc, s');
      StillNoneLeft(s, s');
    }
  }

  lemma OthersStillHold(s: State, o: Owner, cc: ClusterConfig, s': State)
    requires NoneLeftOver(s) && HasConfig(s, o) && o.cluster !in s.clusters && cc == ConfigOf(s, o)
    requires s'.parents == s.parents && s'.ipam == s.ipam - BlockSet(cc.patches)
    requires forall o', c | o' != o :: Holds(s', o', c) <==> Holds(s, o', c)
    ensures NoneLeftOver(s')
  {
    forall c | c in s'.ipam && !IsParent(s'.parents, c)
      ensures exists o' :: Holds(s', o', c)
    {
      var o' :| Holds(s, o', c);
      assert o' != o;
      assert Holds(s', o', c);
    }
  }

  /** A release that fails, or finds no finalizer, changes nothing about who holds what. */
  lemma UnreleasedHolds(s: State, o: Owner, cc: ClusterConfig, s': State)
    requires HasConfig(s, o) && cc == ConfigOf(s, o) && s' == s.(ipam := s'.ipam, ccs := s'.ccs)
    requires s' == WithConfig(s, o, AfterDelete(cc)).(ipam := s'.ipam)
      || (!cc.finalizer && s' == WithConfig(s, o, AfterDelete(cc.(finalizer := false))).(ipam := s'.ipam))
    ensures HoldsNoLess(s, s')
  {
    forall o', c | InConfig(s, o', c)
      ensures InConfig(s', o', c)
    {
      if o' != o {
        assert HasConfig(s', o') && ConfigOf(s', o') == ConfigOf(s, o');
      }
    }
  }

  // ----- The other steps -----

  lemma RecordLostIsClean(s: State, cl: string, s': State)
    requires NoneLeftOver(s) && CoveredCluster(s, cl) && (LoseAnnotationStep(s, cl, s') || DeleteStep(s, cl, s'))
    ensures NoneLeftOver(s')
  {
    forall o, c | Holds(s, o, c)
      ensures Holds(s', o, c)
    {
      if o.cluster == cl && InAnnotation(s, o, c) {
        assert InAnnotation(s, Owner(cl, o.rule), c);
        assert InConfig(s, o, c);
      }
    }
    StillNoneLeft(s, s');
  }

  /** One ClusterConfig changes or goes; the blocks it no longer names are in the annotation. */
  lemma ConfigChangeIsClean(s: State, o: Owner, now: Option<ClusterConfig>, s': State)
    requires NoneLeftOver(s) && HasConfig(s, o) && s' == WithConfig(s, o, now)
    requires forall c | InConfig(s, o, c) :: InConfig(s', o, c) || InAnnotation(s, o, c)
    ensures NoneLeftOver(s')
  {
    forall o', c | Holds(s, o', c)
      ensures Holds(s', o', c)
    {
      if o' != o && InConfig(s, o', c) {
        assert HasConfig(s', o') && ConfigOf(s', o') == ConfigOf(s, o');
      }
    }
    StillNoneLeft(s, s');
  }

  lemma MetadataIsClean(s: State, o: Owner, s': State)
    requires NoneLeftOver(s)
    requires SetForeignStep(s, o, s') || ClearForeignStep(s, o, s') || DeleteConfigStep(s, o, s')
    ensures NoneLeftOver(s')
  {
    var now := if HasConfig(s', o) then Some(ConfigOf(s', o)) else None;
    assert s' == WithConfig(s, o, now);
    ConfigChangeIsClean(s, o, now, s');
  }

  lemma RepairIsClean(s: State, cl: string, s': State)
    requires DataOk(s) && NoneLeftOver(s) && RepairStep(s, cl, s')
    ensures NoneLeftOver(s')
  {
    var ccs := ConfigsOf(s, cl);
    var ins :| CheckSpec(s.clusters[cl], ccs, ins) && s' == s.(ccs := s.ccs[cl := Apply(ccs, ins)]);
    ClusterData(s, cl);
    RepairKeepsHeld(s.clusters[cl], ccs, ins);
    PatchesKept(s, cl, Apply(ccs, ins), s');
    StillNoneLeft(s, s');
  }

  lemma PatchesKept(s: State, cl: string, ccs: ClusterConfigs, s': State)
    requires cl in s.clusters && s' == s.(ccs := s.ccs[cl := ccs]) && AllHeld(ccs)
    requires forall r, x | r in ConfigsOf(s, cl) && x in ConfigsOf(s, cl)[r].patches :: r in ccs && x in ccs[r].patches
    ensures HoldsNoLess(s, s')
  {
    assert s.clusters[cl := s'.clusters[cl]] == s.clusters;
    RecordsKeptHold(s, cl, s');
  }

  lemma RebuildIsClean(s: State, relevant: set<string>, s': State)
    requires Inv(s) && NoneLeftOver(s) && RebuildStep(s, relevant, s')
    ensures NoneLeftOver(s')
  {
    var r :| RebuildsTo(s, relevant, r) && s' == s.(ipam := if r.Some? then r.value else s.ipam);
    if r.Some? {
      RebuiltIsClean(s, relevant, r.value);
    }
  }

  /** Whatever was left over before. */
  lemma RebuiltIsClean(s: State, relevant: set<string>, a: Allocator)
    requires Inv(s) && RebuildsTo(s, relevant, Some(a))
    ensures NoneLeftOver(s.(ipam := a))
  {
    RebuiltForest(s, relevant, Some(a));
    OnlyHeld(s, a);
    NewAllocatorClean(s, a);
  }

  lemma NewAllocatorClean(s: State, a: Allocator)
    requires forall c | c in a :: IsParent(s.parents, c) || exists o :: Holds(s, o, c)
    ensures NoneLeftOver(s.(ipam := a))
  {
    forall c | c in a && !IsParent(s.parents, c)
      ensures exists o :: Holds(s.(ipam := a), o, c)
    {
      var o :| Holds(s, o, c);
      assert Holds(s.(ipam := a), o, c);
    }
  }

  /** If nothing is left over, a new configuration is safe exactly if it fits what is held. */
  lemma ChangeSafeIff(s: State, parents: map<string, seq<Prefix>>)
    requires Inv(s) && NoneLeftOver(s)
    ensures SafeStep(s, ChangeConfig(parents)) <==> ConfigFits(s, parents)
  {
    if ConfigFits(s, parents) {
      forall p | IsParent(parents, p) && p in s.ipam
        ensures s.ipam[p].None?
      {
        AlreadyParent(s, parents, p);
        ParentIsRoot(s, p);
      }
    }
  }

  lemma AlreadyParent(s: State, parents: map<string, seq<Prefix>>, p: Prefix)
    requires NoneLeftOver(s) && ConfigFits(s, parents) && IsParent(parents, p) && p in s.ipam
    ensures IsParent(s.parents, p)
  {
  }

  lemma ParentIsRoot(s: State, p: Prefix)
    requires Inv(s) && NoneLeftOver(s) && IsParent(s.parents, p) && p in s.ipam
    ensures s.ipam[p].None?
  {
    if s.ipam[p].Some? {
      LinkCovers(s, p);
      NotAroundParent(s, p, s.ipam[p].value);
    }
  }

  lemma NotAroundParent(s: State, p: Prefix, q: Prefix)
    requires ParentsOk(s.parents) && PlacedOk(s) && IsParent(s.parents, p)
    requires IsParent(s.parents, q) || exists o :: Holds(s, o, q)
    ensures !StrictlyCovers(q, p)
  {
  }

  lemma LinkCovers(s: State, x: Prefix)
    requires Inv(s) && NoneLeftOver(s) && x in s.ipam && s.ipam[x].Some?
    ensures StrictlyCovers(s.ipam[x].value, x) && s.ipam[x].value in s.ipam
  {
    var k :| Tracked(s, k);
    assert k == s.ipam.Keys;
    TreeOfAll(s.ipam);
  }

  /** And so it is after any successful rebuild. */
  lemma ChangeAfterRebuild(s: State, relevant: set<string>, a: Allocator, parents: map<string, seq<Prefix>>)
    requires Inv(s) && ReadyToRebuild(s, relevant) && UnmatchedCovered(s, relevant) && RebuildsTo(s, relevant, Some(a))
    ensures SafeStep(s.(ipam := a), ChangeConfig(parents)) <==> ConfigFits(s, parents)
  {
    var s' := s.(ipam := a);
    RebuiltIsClean(s, relevant, a);
    assert RebuildStep(s, relevant, s');
    RebuildInv(s, relevant, s');
    ChangeSafeIff(s', parents);
    SameHolds(s, s');
  }

  lemma ChangeIsClean(s: State, parents: map<string, seq<Prefix>>, s': State)
    requires NoneLeftOver(s) && NothingLoose(s) && ChangeStep(s, parents, s')
    requires forall p | IsParent(s.parents, p) :: IsParent(parents, p)
    ensures NoneLeftOver(s') && NothingLoose(s')
  {
    assert forall o, c :: Holds(s', o, c) <==> Holds(s, o, c);
    forall c | UnderParent(s, c)
      ensures UnderParent(s', c)
    {
      var p :| IsParent(s.parents, p) && Overlaps(p, c);
      assert IsParent(s'.parents, p);
    }
    forall c | c in s'.ipam && !IsParent(s'.parents, c)
      ensures exists o :: Holds(s', o, c)
    {
      var o :| Holds(s, o, c);
      assert Holds(s', o, c);
    }
  }

  lemma RestartIsClean(s: State, parents: map<string, seq<Prefix>>, relevant: set<string>, s': State)
    requires Inv(s) && RestartStep(s, parents, relevant, s') && SafeStep(s, Restart(parents, relevant))
    ensures NoneLeftOver(s') && NothingLoose(s')
  {
    RestartInv(s, parents, relevant, s');
    RestartCovered(s, parents, relevant, s');
    RebuiltForest(s', relevant, Some(s'.ipam));
    OnlyHeld(s', s'.ipam);
    CoveredNotLoose(s');
  }

  lemma CoveredNotLoose(s: State)
    requires Covered(s) && forall o :: !NestedUnparented(s, o)
    ensures NothingLoose(s)
  {
    forall o, c, d | Holds(s, o, c) && Holds(s, o, d) && c != d && Overlaps(c, d)
      ensures UnderParent(s, c) || UnderParent(s, d)
    {
      assert InConfig(s, o, c) && InConfig(s, o, d) && !NestedUnparented(s, o);
    }
  }

  lemma FirstStateClean(s: State)
    requires Init(s)
    ensures Clean(s)
  {
    InitInv(s);
    FirstAllocator(s);
    NothingHeldNothingLoose(s);
  }

  lemma FirstAllocator(s: State)
    requires Init(s)
    ensures NoneLeftOver(s)
  {
    NothingHeld(s);
    RebuiltForest(s, {}, Some(s.ipam));
    OnlyHeld(s, s.ipam);
  }

  lemma NothingHeldNothingLoose(s: State)
    requires s.clusters == map[] && s.ccs == map[]
    ensures NothingLoose(s)
  {
    assert forall o, c :: !Holds(s, o, c);
  }

  // ----- Nothing loose -----

  lemma LessIsNotLoose(s: State, s': State)
    requires NothingLoose(s) && s'.parents == s.parents && HoldsNoMore(s, s')
    ensures NothingLoose(s')
  {
    assert forall c :: UnderParent(s', c) <==> UnderParent(s, c);
  }

  /** Whatever is newly held lies under a configured parent. */
  ghost predicate OnlyUnderParents(s: State, s': State) {
    s'.parents == s.parents && forall o, c | Holds(s', o, c) && !Holds(s, o, c) :: UnderParent(s, c)
  }

  lemma StillNothingLoose(s: State, s': State)
    requires NothingLoose(s) && OnlyUnderParents(s, s')
    ensures NothingLoose(s')
  {
    assert forall c :: UnderParent(s', c) <==> UnderParent(s, c);
  }

  lemma UnderParentsTwice(s: State, s1: State, s2: State)
    requires OnlyUnderParents(s, s1) && OnlyUnderParents(s1, s2)
    ensures OnlyUnderParents(s, s2)
  {
    assert forall c :: UnderParent(s1, c) <==> UnderParent(s, c);
  }

  lemma RuleAddsUnderParents(s: State, cl: string, ctx: Context, w: Work, rule: Rule, w': Work)
    requires cl in s.clusters && ctx.parents == s.parents && Inv(During(s, cl, w))
    requires RuleStep(ctx, w, rule, w') && (rule.id in ctx.applied || rule.id !in w.annotation)
    ensures OnlyUnderParents(During(s, cl, w), During(s, cl, w'))
  {
    if w'.annotation != w.annotation {
      var injs, trace := TraceOfRule(ctx, w, rule, w');
      GeneratedUnderParents(s, cl, w, rule.id, injs, trace, w');
    }
  }

  lemma TraceOfRule(ctx: Context, w: Work, rule: Rule, w': Work) returns (injs: seq<Injection>, trace: seq<Pick>)
    requires RuleStep(ctx, w, rule, w') && w'.annotation != w.annotation
    ensures |trace| == |injs| && ValidTrace(w.ipam, injs, ctx.parents, trace)
    ensures w'.annotation == w.annotation[rule.id := AsInjections(RawAfter(injs, trace))]
  {
    injs := NormRule(ctx.conv, rule).injections;
    var t, raw :| GenerateSpec(w.ipam, injs, ctx.parents, t, raw, w'.ipam) && Recorded(ctx, w, rule, raw, w');
    RecordedFields(ctx, w, rule, raw.value, w');
    trace := t;
  }

  lemma GeneratedUnderParents(s: State, cl: string, w: Work, r: RuleId, injs: seq<Injection>, trace: seq<Pick>,
                              w': Work)
    requires cl in s.clusters && Inv(During(s, cl, w)) && |trace| == |injs|
    requires ValidTrace(w.ipam, injs, s.parents, trace)
    requires w'.annotation == w.annotation[r := AsInjections(RawAfter(injs, trace))]
    ensures OnlyUnderParents(During(s, cl, w), During(s, cl, w'))
  {
    RawBlocks(injs, trace);
    var k := NewBlocksPlaced(During(s, cl, w), injs, trace);
    RecordedUnderParents(s, cl, w, r, AsInjections(RawAfter(injs, trace)), w', k, Blocks(trace));
  }

  lemma RecordedUnderParents(s: State, cl: string, w: Work, r: RuleId, injections: Injections, w': Work,
                             k: set<Prefix>, blocks: set<Prefix>)
    requires cl in s.clusters && w'.annotation == w.annotation[r := injections]
    requires RecordedBlocks(injections) <= blocks && AllPlaced(k, s.parents, blocks)
    ensures OnlyUnderParents(During(s, cl, w), During(s, cl, w'))
  {
    var was, now := During(s, cl, w), During(s, cl, w');
    forall o, c | Holds(now, o, c) && !Holds(was, o, c)
      ensures UnderParent(was, c)
    {
      assert o == Owner(cl, r) && c in RecordedBlocks(injections);
      var p :| IsParent(s.parents, p) && p in k && StrictlyCovers(p, c);
      assert Overlaps(p, c);
    }
  }

  lemma {:induction false} RulesAddUnderParents(s: State, cl: string, ctx: Context, rules: seq<Rule>, ws: seq<Work>)
    requires cl in s.clusters && ctx.parents == s.parents && NoDuplicates(Ids(rules))
    requires forall r | r in ConfigsOf(s, cl) :: r in ctx.applied
    requires RulesRun(ctx, rules, ws) && Started(ctx, ws[0]) && Inv(During(s, cl, ws[0]))
    ensures OnlyUnderParents(During(s, cl, ws[0]), During(s, cl, ws[|rules|]))
  {
    if rules != [] {
      var n := |rules| - 1;
      LastStep(ctx, rules, ws);
      DistinctInit(rules);
      RulesAddUnderParents(s, cl, ctx, rules[..n], ws[..n + 1]);
      RulesInv(s, cl, ctx, rules[..n], ws[..n + 1]);
      RunData(ctx, rules[..n], ws[..n + 1]);
      RuleAddsUnderParents(s, cl, ctx, ws[n], rules[n], ws[n + 1]);
      UnderParentsTwice(During(s, cl, ws[0]), During(s, cl, ws[n]), During(s, cl, ws[n + 1]));
    }
  }

  lemma ReconcileNotLoose(s: State, cl: string, rules: seq<Rule>, conv: Conversion, s': State)
    requires Inv(s) && NothingLoose(s) && ReconcileStep(s, cl, rules, conv, s')
    ensures NothingLoose(s')
  {
    var ws, res :| ReconcileWith(s, cl, rules, conv, ws, res, s');
    if res.Some? {
      var m := res.value;
      var s1 := s.(clusters := s.clusters[cl := m.merged]);
      var s2 := Repaired(s, cl, m.merged, m.instruction);
      MergedHoldsNoMore(s, cl, m.merged);
      MergedInv(s, cl, m.merged);
      RepairedHoldsNoMore(s1, cl, m.instruction, s2);
      LessIsNotLoose(s, s1);
      LessIsNotLoose(s1, s2);
      MergedAndRepairedInv(s, cl, m.merged, m.instruction);
      RepairedRules(m.merged, ConfigsOf(s, cl), m.instruction);
      ReconciledFields(s, cl, m, s');
      RulesAndCreatesNotLoose(s2, cl, Context(m.merged, s.parents, conv), rules, ws, s');
    }
  }

  lemma RulesAndCreatesNotLoose(s: State, cl: string, ctx: Context, rules: seq<Rule>, ws: seq<Work>, s': State)
    requires Inv(s) && NothingLoose(s) && cl in s.clusters && s.clusters[cl] == ctx.applied && ctx.parents == s.parents
    requires NoDuplicates(Ids(rules)) && forall r | r in ConfigsOf(s, cl) :: r in ctx.applied
    requires RulesRun(ctx, rules, ws) && Started(ctx, ws[0]) && ws[0].ipam == s.ipam
    requires s'.parents == s.parents && s'.ipam == ws[|rules|].ipam
    requires s'.clusters == s.clusters[cl := ws[|rules|].annotation]
    requires s'.ccs == s.ccs[cl := CreateAll(ConfigsOf(s, cl), ws[|rules|].creates).0]
    ensures NothingLoose(s')
  {
    assert During(s, cl, ws[0]) == s;
    var mid := During(s, cl, ws[|rules|]);
    RulesAddUnderParents(s, cl, ctx, rules, ws);
    StillNothingLoose(s, mid);
    RulesInv(s, cl, ctx, rules, ws);
    RunData(ctx, rules, ws);
    CreatedHoldsNoMore(mid, cl, ws[|rules|], s');
    LessIsNotLoose(mid, s');
  }

  /** What happens outside only takes away from what is held. */
  lemma OutsideNotLoose(conv: Conversion, s: State, step: Step, s': State)
    requires DataOk(s) && NothingLoose(s) && Next(conv, s, step, s') && FromOutside(step)
    ensures NothingLoose(s')
  {
    match step
    case CreateCluster(cl) => LessIsNotLoose(s, s');
    case DeleteCluster(cl) => LessIsNotLoose(s, s');
    case LoseAnnotation(cl) => LessIsNotLoose(s, s');
    case LoseConfig(o) => MetadataNotLoose(s, o, s');
    case LosePatch(o, i) => LosePatchNotLoose(s, o, i, s');
    case SetForeign(o) => MetadataNotLoose(s, o, s');
    case ClearForeign(o) => MetadataNotLoose(s, o, s');
    case DeleteConfig(o) => MetadataNotLoose(s, o, s');
  }

  lemma LosePatchNotLoose(s: State, o: Owner, i: nat, s': State)
    requires DataOk(s) && NothingLoose(s) && LosePatchStep(s, o, i, s')
    ensures NothingLoose(s')
  {
    LosingPatchHoldsLess(ConfigOf(s, o), i);
    HeldIfExisting(s, o);
    ConfigShrinksHolds(s, o, Some(LosingPatch(ConfigOf(s, o), i)));
    LessIsNotLoose(s, s');
  }

  lemma MetadataNotLoose(s: State, o: Owner, s': State)
    requires DataOk(s) && NothingLoose(s)
    requires LoseConfigStep(s, o, s') || SetForeignStep(s, o, s') || ClearForeignStep(s, o, s')
      || DeleteConfigStep(s, o, s')
    ensures NothingLoose(s')
  {
    MetadataChanges(s, o, s');
    ConfigShrinksHolds(s, o, if HasConfig(s', o) then Some(ConfigOf(s', o)) else None);
    LessIsNotLoose(s, s');
  }

  // ----- Steps and runs -----

  lemma StepNotLoose(conv: Conversion, s: State, step: Step, s': State)
    requires Clean(s) && Next(conv, s, step, s') && SafeStep(s, step) && CleanStep(conv, s, step, s')
    ensures NothingLoose(s')
  {
    if FromOutside(step) {
      OutsideNotLoose(conv, s, step, s');
    } else if step.Reconcile? || step.ReconcilePartly? || step.RepairCluster? || step.RepairPartly? {
      ClusterStepNotLoose(conv, s, step, s');
    } else if step.ReleaseConfig? || step.RebuildIpam? {
      IpamStepNotLoose(conv, s, step, s');
    } else {
      ConfigStepNotLoose(conv, s, step, s');
    }
  }

  lemma IpamStepNotLoose(conv: Conversion, s: State, step: Step, s': State)
    requires NothingLoose(s) && Next(conv, s, step, s') && (step.ReleaseConfig? || step.RebuildIpam?)
    ensures NothingLoose(s')
  {
    match step
    case ReleaseConfig(o, ok) => ReleaseNotLoose(s, o, ok, s');
    case RebuildIpam(relevant) => LessIsNotLoose(s, s');
  }

  lemma ConfigStepNotLoose(conv: Conversion, s: State, step: Step, s': State)
    requires Clean(s) && Next(conv, s, step, s') && SafeStep(s, step) && CleanStep(conv, s, step, s')
    requires step.ChangeConfig? || step.Restart?
    ensures NothingLoose(s')
  {
    match step
    case ChangeConfig(parents) => ChangeIsClean(s, parents, s');
    case Restart(parents, relevant) => RestartIsClean(s, parents, relevant, s');
  }

  lemma ClusterStepNotLoose(conv: Conversion, s: State, step: Step, s': State)
    requires Inv(s) && NothingLoose(s) && Next(conv, s, step, s')
    requires step.Reconcile? || step.ReconcilePartly? || step.RepairCluster? || step.RepairPartly?
    ensures NothingLoose(s')
  {
    match step
    case Reconcile(cl, rules) => ReconcileNotLoose(s, cl, rules, conv, s');
    case ReconcilePartly(cl, rules) => ReconcilePartlyNotLoose(s, cl, rules, conv, s');
    case RepairCluster(cl) => RepairNotLoose(s, cl, s');
    case RepairPartly(cl) => RepairPartlyNotLoose(s, cl, s');
  }

  lemma ReleaseNotLoose(s: State, o: Owner, ok: bool, s': State)
    requires NothingLoose(s) && ReleaseStep(s, o, ok, s')
    ensures NothingLoose(s')
  {
    if ok {
      ReleaseFrees(s, o, s');
    }
    forall o', c | InConfig(s', o', c)
      ensures InConfig(s, o', c)
    {
      assert HasConfig(s, o');
    }
    LessIsNotLoose(s, s');
  }

  lemma RepairNotLoose(s: State, cl: string, s': State)
    requires DataOk(s) && NothingLoose(s) && RepairStep(s, cl, s')
    ensures NothingLoose(s')
  {
    var ins :| CheckSpec(s.clusters[cl], ConfigsOf(s, cl), ins)
      && s' == s.(ccs := s.ccs[cl := Apply(ConfigsOf(s, cl), ins)]);
    RepairedHoldsNoMore(s, cl, ins, s');
    LessIsNotLoose(s, s');
  }

  lemma ReconcilePartlyNotLoose(s: State, cl: string, rules: seq<Rule>, conv: Conversion, s': State)
    requires Inv(s) && NothingLoose(s) && ReconcilePartlyStep(s, cl, rules, conv, s')
    ensures NothingLoose(s')
  {
    var intended :| ReconcileStep(s, cl, rules, conv, intended) && PartlyWritten(s, intended, cl, s');
    ReconcileNotLoose(s, cl, rules, conv, intended);
    ReconcileInv(s, cl, rules, conv, intended);
    ReconcileAddsTo(s, cl, rules, conv, intended);
    PartHoldsNoMore(s, cl, intended, s');
    LessIsNotLoose(intended, s');
  }

  lemma RepairPartlyNotLoose(s: State, cl: string, s': State)
    requires Inv(s) && NothingLoose(s) && RepairPartlyStep(s, cl, s')
    ensures NothingLoose(s')
  {
    var intended :| RepairStep(s, cl, intended) && PartlyWritten(s, intended, cl, s');
    RepairNotLoose(s, cl, intended);
    RepairInv(s, cl, intended);
    RepairAddsTo(s, cl, intended);
    PartHoldsNoMore(s, cl, intended, s');
    LessIsNotLoose(intended, s');
  }

  lemma ReconcilePartlyIsClean(s: State, cl: string, rules: seq<Rule>, conv: Conversion, s': State)
    requires Inv(s) && NoneLeftOver(s) && ReconcilePartlyStep(s, cl, rules, conv, s')
    requires CleanReconcilePartly(s, cl, rules, conv, s')
    ensures NoneLeftOver(s')
  {
    var intended :| CleanReconcile(s, cl, rules, conv, intended) && PartlyWritten(s, intended, cl, s')
      && HoldsNoLess(intended, s');
    ReconcileIsClean(s, cl, rules, conv, intended);
    StillNoneLeft(intended, s');
  }

  lemma RepairPartlyIsClean(s: State, cl: string, s': State)
    requires Inv(s) && NoneLeftOver(s) && RepairPartlyStep(s, cl, s')
    ensures NoneLeftOver(s')
  {
    var intended :| RepairStep(s, cl, intended) && PartlyWritten(s, intended, cl, s');
    RepairInv(s, cl, intended);
    RepairAddsTo(s, cl, intended);
    PartHoldsNoLess(s, cl, intended, s');
    StillNoneLeft(s, s');
  }

  lemma PartHoldsNoLess(s: State, cl: string, intended: State, s': State)
    requires DataOk(intended) && AddsTo(s, cl, intended) && PartlyWritten(s, intended, cl, s')
    requires intended.ccs == s.ccs[cl := ConfigsOf(intended, cl)]
    ensures HoldsNoLess(s, s')
  {
    ClusterData(intended, cl);
    forall o, c | InConfig(s, o, c)
      ensures InConfig(s', o, c)
    {
      if o.cluster == cl {
        assert PartOfConfigs(ConfigsOf(s, cl), ConfigsOf(intended, cl), ConfigsOf(s', cl), o.rule);
        MoreListed(ConfigsOf(s, cl), ConfigsOf(s', cl), o.rule, c);
      } else {
        assert ConfigOf(s', o) == ConfigOf(s, o);
      }
    }
    forall o, c | InAnnotation(s, o, c)
      ensures InAnnotation(s', o, c)
    {
      var p :| p in s.clusters[o.cluster][o.rule] && s.clusters[o.cluster][o.rule][p] == Block(c);
    }
  }

  lemma MoreListed(was: ClusterConfigs, now: ClusterConfigs, r: RuleId, c: Prefix)
    requires r in was && c in BlockSet(was[r].patches)
    requires forall x | x in was[r].patches :: r in now && x in now[r].patches
    ensures r in now && c in BlockSet(now[r].patches)
  {
    BlockSetMembers(was[r].patches, c);
    var i :| 0 <= i < |was[r].patches| && AddsBlock(was[r].patches[i]) && BlockOf(was[r].patches[i]) == c;
    var x := was[r].patches[i];
    assert x in was[r].patches && x in now[r].patches;
    BlockSetMembers(now[r].patches, c);
  }

  lemma StepLeavesNothing(conv: Conversion, s: State, step: Step, s': State)
    requires Clean(s) && Next(conv, s, step, s') && SafeStep(s, step) && CleanStep(conv, s, step, s')
    ensures NoneLeftOver(s')
  {
    if FromOutside(step) {
      OutsideLeavesNothing(conv, s, step, s');
    } else {
      CodeLeavesNothing(conv, s, step, s');
    }
  }

  lemma OutsideLeavesNothing(conv: Conversion, s: State, step: Step, s': State)
    requires NoneLeftOver(s) && Next(conv, s, step, s') && CleanStep(conv, s, step, s') && FromOutside(step)
    ensures NoneLeftOver(s')
  {
    match step
    case CreateCluster(cl) => CreateIsClean(s, cl, s');
    case DeleteCluster(cl) => RecordLostIsClean(s, cl, s');
    case LoseAnnotation(cl) => RecordLostIsClean(s, cl, s');
    case LoseConfig(o) => ConfigChangeIsClean(s, o, None, s');
    case LosePatch(o, i) => ConfigChangeIsClean(s, o, Some(LosingPatch(ConfigOf(s, o), i)), s');
    case SetForeign(o) => MetadataIsClean(s, o, s');
    case ClearForeign(o) => MetadataIsClean(s, o, s');
    case DeleteConfig(o) => MetadataIsClean(s, o, s');
  }

  lemma CodeLeavesNothing(conv: Conversion, s: State, step: Step, s': State)
    requires Clean(s) && Next(conv, s, step, s') && SafeStep(s, step) && CleanStep(conv, s, step, s')
    requires !FromOutside(step)
    ensures NoneLeftOver(s')
  {
    match step
    case Reconcile(cl, rules) => ReconcileIsClean(s, cl, rules, conv, s');
    case ReconcilePartly(cl, rules) => ReconcilePartlyIsClean(s, cl, rules, conv, s');
    case ReleaseConfig(o, ok) => ReleaseIsClean(s, o, ok, s');
    case RepairCluster(cl) => RepairIsClean(s, cl, s');
    case RepairPartly(cl) => RepairPartlyIsClean(s, cl, s');
    case RebuildIpam(relevant) => RebuildIsClean(s, relevant, s');
    case ChangeConfig(parents) => ChangeIsClean(s, parents, s');
    case Restart(parents, relevant) => RestartIsClean(s, parents, relevant, s');
  }

  lemma CreateIsClean(s: State, cl: string, s': State)
    requires NoneLeftOver(s) && CreateStep(s, cl, s')
    ensures NoneLeftOver(s')
  {
    StillNoneLeft(s, s');
  }

  lemma StepIsClean(conv: Conversion, s: State, step: Step, s': State)
    requires Clean(s) && Next(conv, s, step, s') && SafeStep(s, step) && CleanStep(conv, s, step, s')
    ensures Clean(s')
  {
    NextInv(conv, s, step, s');
    StepLeavesNothing(conv, s, step, s');
    StepNotLoose(conv, s, step, s');
  }

  /** In a clean run nothing is ever left over, and no owner holds nested blocks that lie outside
      all configured parents. */
  lemma CleanRunLeavesNothing(conv: Conversion, states: seq<State>, steps: seq<Step>, i: nat)
    requires CleanRun(conv, states, steps) && i < |states|
    ensures Clean(states[i])
  {
    FirstStateClean(states[0]);
    StaysClean(conv, states, steps, i);
  }

  lemma StaysClean(conv: Conversion, states: seq<State>, steps: seq<Step>, i: nat)
    requires Chain(CleanNextOf(conv), states, steps) && i < |states| && Clean(states[0])
    ensures Clean(states[i])
  {
    forall s, step, s' | Clean(s) && CleanNextOf(conv)(s, step, s')
      ensures Clean(s')
    {
      StepIsClean(conv, s, step, s');
    }
    ChainKeeps(CleanNextOf(conv), s => Clean(s), states, steps, i);
  }

  /** The rebuild round trip over a whole run: from patch lists that were produced by
      generation, with nothing lost and all configured parents registered, the rebuild succeeds
      and gives back exactly the live allocator, the parent of every block included. */
  lemma CleanRunRoundTrip(conv: Conversion, states: seq<State>, steps: seq<Step>, i: nat, relevant: set<string>,
                          r: Option<Allocator>)
    requires CleanRun(conv, states, steps) && i < |states| && Covered(states[i])
    requires RebuildsTo(states[i], relevant, r)
    ensures r.Some?
    ensures r == Some(states[i].ipam) <==> AllParentsRegistered(states[i])
  {
    CleanRunLeavesNothing(conv, states, steps, i);
    RebuiltForest(states[i], relevant, r);
    NoneNestedUnparented(states[i]);
    if AllParentsRegistered(states[i]) {
      SameAllocator(states[i], r.value);
    }
  }

  lemma NoneNestedUnparented(s: State)
    requires NothingLoose(s)
    ensures forall o :: !NestedUnparented(s, o)
  {
    forall o, c, d | InConfig(s, o, c) && InConfig(s, o, d) && c != d && Overlaps(c, d)
      ensures UnderParent(s, c) || UnderParent(s, d)
    {
      assert Holds(s, o, c) && Holds(s, o, d);
    }
  }
}
