/** A reconcile keeps the invariant: its merge and repair hold nothing new, and the blocks of
    every newly applied rule are disjoint from everything held by others. */
module ReconcileInvariant {
  import opened Prefixes
  import opened Forest
  import opened GoIpam
  import opened Config
  import opened Patches
  import opened Generation
  import opened GenerationTheorems
  import opened Repair
  import opened RebuildTheorems
  import opened InjectionManagement
  import opened InjectionTheorems
  import opened System
  import opened SystemInvariant

  // ----- Merging -----

  lemma MergedInv(s: State, cl: string, merged: AppliedRules)
    requires Inv(s) && cl in s.clusters && MergedTo(s.clusters[cl], ConfigsOf(s, cl), merged)
    ensures Inv(s.(clusters := s.clusters[cl := merged]))
  {
    var s' := s.(clusters := s.clusters[cl := merged]);
    ClusterData(s, cl);
    MergedClusterOk(s.clusters[cl], ConfigsOf(s, cl), merged);
    OneClusterData(s, cl, merged, ConfigsOf(s, cl));
    MergedData(s, cl, merged);
    MergedHoldsNoMore(s, cl, merged);
    ShrinkInv(s, s');
  }

  lemma MergedData(s: State, cl: string, merged: AppliedRules)
    requires cl in s.clusters && DataOk(WithCluster(s, cl, merged, ConfigsOf(s, cl)))
    ensures DataOk(s.(clusters := s.clusters[cl := merged]))
  {
    var s', t := s.(clusters := s.clusters[cl := merged]), WithCluster(s, cl, merged, ConfigsOf(s, cl));
    assert forall c :: ConfigsOf(s', c) == ConfigsOf(t, c);
    assert forall c | c in s'.ccs :: s'.ccs[c] == t.ccs[c];
  }

  lemma MergedHoldsNoMore(s: State, cl: string, merged: AppliedRules)
    requires DataOk(s) && cl in s.clusters && MergedTo(s.clusters[cl], ConfigsOf(s, cl), merged)
    ensures HoldsNoMore(s, s.(clusters := s.clusters[cl := merged]))
  {
    var s' := s.(clusters := s.clusters[cl := merged]);
    forall o, c | InAnnotation(s', o, c)
      ensures Holds(s, o, c)
    {
      if o.cluster == cl {
        var p :| p in merged[o.rule] && merged[o.rule][p] == Block(c);
        MergedValue(s, cl, merged, o.rule, p);
      }
    }
  }

  lemma MergedClusterOk(applied: AppliedRules, ccs: ClusterConfigs, merged: AppliedRules)
    requires ClusterOk(applied, ccs) && ConfigsOk(ccs) && MergedTo(applied, ccs, merged)
    ensures ClusterOk(merged, ccs)
  {
    forall r | r in merged
      ensures AllBlockTexts(merged[r])
      ensures r in ccs ==> SameValues(merged[r], ccs[r].patches)
    {
      MergedTexts(applied, ccs, merged, r);
      if r in ccs {
        MergedSameValues(applied, ccs, merged, r);
      }
    }
  }

  lemma MergedTexts(applied: AppliedRules, ccs: ClusterConfigs, merged: AppliedRules, r: RuleId)
    requires ClusterOk(applied, ccs) && ConfigsOk(ccs) && MergedTo(applied, ccs, merged) && r in merged
    ensures AllBlockTexts(merged[r])
  {
    var recorded: Injections := if r in applied then applied[r] else map[];
    var patches := if r in ccs then ccs[r].patches else [];
    MergeKeepsRecorded(recorded, patches);
    forall p | p in merged[r]
      ensures merged[r][p].Block?
    {
      if p !in recorded {
        var i :| 0 <= i < |patches| && patches[i].path == p && patches[i].value == Str(merged[r][p]);
        assert ConfigOk(ccs[r]);
      }
    }
  }

  lemma MergedSameValues(applied: AppliedRules, ccs: ClusterConfigs, merged: AppliedRules, r: RuleId)
    requires ClusterOk(applied, ccs) && ConfigsOk(ccs) && MergedTo(applied, ccs, merged) && r in merged && r in ccs
    ensures SameValues(merged[r], ccs[r].patches)
  {
    var recorded: Injections := if r in applied then applied[r] else map[];
    var patches := ccs[r].patches;
    assert ConfigOk(ccs[r]);
    MergeKeepsRecorded(recorded, patches);
    forall x | x in patches && x.path in merged[r]
      ensures x == AddPatch(x.path, merged[r][x.path])
    {
      var i :| 0 <= i < |patches| && patches[i] == x;
      if x.path !in recorded {
        var j :| 0 <= j < |patches| && patches[j].path == x.path && patches[j].value == Str(merged[r][x.path]);
        assert i == j;
      }
    }
  }

  lemma MergedValue(s: State, cl: string, merged: AppliedRules, r: RuleId, p: string)
    requires DataOk(s) && cl in s.clusters && MergedTo(s.clusters[cl], ConfigsOf(s, cl), merged)
    requires r in merged && p in merged[r] && merged[r][p].Block?
    ensures Holds(s, Owner(cl, r), merged[r][p].cidr)
  {
    var applied, ccs := s.clusters[cl], ConfigsOf(s, cl);
    var recorded: Injections := if r in applied then applied[r] else map[];
    var patches := if r in ccs then ccs[r].patches else [];
    MergeKeepsRecorded(recorded, patches);
    if p in recorded {
      assert InAnnotation(s, Owner(cl, r), recorded[p].cidr);
    } else {
      var i :| 0 <= i < |patches| && patches[i].path == p && patches[i].value == Str(merged[r][p]);
      HeldIfExisting(s, Owner(cl, r));
      BlockSetMembers(patches, merged[r][p].cidr);
      assert InConfig(s, Owner(cl, r), merged[r][p].cidr);
    }
  }

  // ----- One rule -----

  /** The system while the rules are applied: allocator and annotation as in the loop. */
  function During(s: State, cl: string, w: Work): State {
    s.(ipam := w.ipam, clusters := s.clusters[cl := w.annotation])
  }

  /** Blocks that a failed rule leaves behind lie inside configured parents, so that they are
      neither roots nor parents themselves. */
  ghost predicate OnlyChildrenAdded(s: State, b: Allocator) {
    && (forall x | x in s.ipam :: x in b && b[x] == s.ipam[x])
    && (forall x | x in b && x !in s.ipam :: b[x].Some? && !IsParent(s.parents, x))
  }

  lemma FailedRuleInv(s: State, s': State)
    requires Inv(s) && s' == s.(ipam := s'.ipam) && OnlyChildrenAdded(s, s'.ipam)
    ensures Inv(s')
  {
    var k :| Tracked(s, k);
    forall c | c in k && s.ipam[c].Some?
      ensures s.ipam[c].value in k
    {
      assert Restrict(s.ipam, k)[c] == s.ipam[c];
    }
    ShrinkTree(s.ipam, k, s'.ipam, k);
    forall o, c | Holds(s', o, c)
      ensures Holds(s, o, c)
    {
    }
    SameData(s, s');
    assert PlacedOk(s') && OwnersDisjoint(s');
    assert Tracked(s', k);
  }

  lemma FailureAddsChildren(s: State, injs: seq<Injection>, trace: seq<Pick>, b: Allocator)
    requires Inv(s) && GenerateSpec(s.ipam, injs, s.parents, trace, None, b)
    ensures OnlyChildrenAdded(s, b)
  {
    var k :| Tracked(s, k);
    FailureFrame(s.ipam, injs, s.parents, trace, b);
    TracePlaced(s.ipam, k, injs, s.parents, trace);
    forall x | x in b && x !in s.ipam
      ensures !IsParent(s.parents, x)
    {
      PlacedIsNoParent(k, s.parents, x);
    }
  }

  lemma PlacedIsNoParent(k: set<Prefix>, parents: map<string, seq<Prefix>>, c: Prefix)
    requires ParentsOk(parents) && BlockPlaced(k, parents, c)
    ensures !IsParent(parents, c)
  {
    var p :| IsParent(parents, p) && p in k && StrictlyCovers(p, c);
    assert Overlaps(p, c);
  }

  lemma NewBlockOk(s: State, k: set<Prefix>, block: Prefix)
    requires ParentsOk(s.parents) && PlacedOk(s) && Tracked(s, k) && BlockPlaced(k, s.parents, block)
    ensures forall q | IsParent(s.parents, q) && Overlaps(q, block) :: StrictlyCovers(q, block)
    ensures forall o, c | Holds(s, o, c) :: !Overlaps(c, block) && !Overlaps(block, c)
  {
    var p :| IsParent(s.parents, p) && p in k && StrictlyCovers(p, block)
      && forall x | x in k && Overlaps(x, block) :: Covers(x, p);
    forall q | IsParent(s.parents, q) && Overlaps(q, block)
      ensures q == p
    {
      OverlapsHost(p, block, q);
    }
    forall o, c | Holds(s, o, c)
      ensures !Overlaps(c, block) && !Overlaps(block, c)
    {
      HeldClearOf(s, k, p, block, o, c);
    }
  }

  lemma HeldClearOf(s: State, k: set<Prefix>, p: Prefix, block: Prefix, o: Owner, c: Prefix)
    requires PlacedOk(s) && IsParent(s.parents, p) && StrictlyCovers(p, block) && Holds(s, o, c) && c in k
    requires forall x | x in k && Overlaps(x, block) :: Covers(x, p)
    ensures !Overlaps(c, block) && !Overlaps(block, c)
  {
    if Overlaps(c, block) {
      OverlapsHost(p, block, c);
      NestedOrDisjoint(c, p);
      NestedOrDisjoint(p, c);
    }
  }

  lemma OverlapsHost(p: Prefix, block: Prefix, q: Prefix)
    requires StrictlyCovers(p, block) && Overlaps(q, block)
    ensures Overlaps(q, p) && Overlaps(p, q)
  {
  }

  /** The owner o, which held nothing, now holds the given blocks. */
  ghost predicate NowHolds(s: State, o: Owner, blocks: set<Prefix>, s': State) {
    && s'.parents == s.parents
    && (forall c :: !Holds(s, o, c))
    && (forall o', c :: Holds(s', o', c) <==> Holds(s, o', c) || (o' == o && c in blocks))
  }

  lemma NewHoldingsInv(s: State, o: Owner, blocks: set<Prefix>, s': State, k: set<Prefix>, k': set<Prefix>)
    requires ParentsOk(s.parents) && PlacedOk(s) && OwnersDisjoint(s) && Tracked(s, k)
    requires DataOk(s') && NowHolds(s, o, blocks, s')
    requires k <= k' && blocks <= k' && Tree(s'.ipam, k')
    requires forall x | x in s'.ipam && x !in k' :: x in s.ipam && s'.ipam[x] == s.ipam[x]
    requires forall c | c in blocks :: BlockPlaced(k, s.parents, c)
    ensures Inv(s')
  {
    forall c | c in blocks
      ensures forall q | IsParent(s.parents, q) && Overlaps(q, c) :: StrictlyCovers(q, c)
      ensures forall o', d | Holds(s, o', d) :: !Overlaps(d, c) && !Overlaps(c, d)
    {
      NewBlockOk(s, k, c);
    }
    assert PlacedOk(s');
    assert OwnersDisjoint(s');
    assert Tracked(s', k');
  }

  lemma AppliedHolds(s: State, cl: string, r: RuleId, injections: Injections, annotation: AppliedRules, s': State)
    requires cl in s.clusters && r !in s.clusters[cl] && r !in ConfigsOf(s, cl)
    requires annotation == s.clusters[cl][r := injections]
    requires s' == s.(ipam := s'.ipam, clusters := s.clusters[cl := annotation])
    ensures NowHolds(s, Owner(cl, r), RecordedBlocks(injections), s')
  {
  }

  lemma AppliedData(s: State, cl: string, r: RuleId, injections: Injections, annotation: AppliedRules, s': State)
    requires DataOk(s) && cl in s.clusters && r !in ConfigsOf(s, cl) && AllBlockTexts(injections)
    requires annotation == s.clusters[cl][r := injections]
    requires s' == s.(ipam := s'.ipam, clusters := s.clusters[cl := annotation])
    ensures DataOk(s')
  {
    ClusterData(s, cl);
    assert forall c :: ConfigsOf(s', c) == ConfigsOf(s, c);
    assert ClusterOk(s'.clusters[cl], ConfigsOf(s, cl));
  }

  /** The state after a rule got its blocks: they are recorded for an owner that held none. */
  lemma AppliedRuleInv(s: State, cl: string, r: RuleId, trace: seq<Pick>, injs: seq<Injection>, injections: Injections,
                       annotation: AppliedRules, s': State)
    requires Inv(s) && cl in s.clusters && r !in s.clusters[cl] && r !in ConfigsOf(s, cl)
    requires |trace| <= |injs| && ValidTrace(s.ipam, injs, s.parents, trace)
    requires AllBlockTexts(injections) && RecordedBlocks(injections) <= Blocks(trace)
    requires annotation == s.clusters[cl][r := injections]
    requires s' == s.(ipam := StateAfter(s.ipam, trace), clusters := s.clusters[cl := annotation])
    ensures Inv(s')
  {
    var k :| Tracked(s, k);
    TracePlaced(s.ipam, k, injs, s.parents, trace);
    StateAfterKeys(s.ipam, injs, s.parents, trace);
    AppliedHolds(s, cl, r, injections, annotation, s');
    AppliedData(s, cl, r, injections, annotation, s');
    NewHoldingsInv(s, Owner(cl, r), RecordedBlocks(injections), s', k, k + Blocks(trace));
  }

  lemma RawBlocks(injs: seq<Injection>, trace: seq<Pick>)
    requires |trace| <= |injs|
    ensures RecordedBlocks(AsInjections(RawAfter(injs, trace))) <= Blocks(trace)
    ensures AllBlockTexts(AsInjections(RawAfter(injs, trace)))
  {
    forall c | c in RecordedBlocks(AsInjections(RawAfter(injs, trace)))
      ensures c in Blocks(trace)
    {
      var p :| p in RawAfter(injs, trace) && RawAfter(injs, trace)[p] == c;
      RawValues(injs, trace, p);
    }
  }

  lemma RuleInv(s: State, cl: string, ctx: Context, w: Work, rule: Rule, w': Work)
    requires cl in s.clusters && Inv(During(s, cl, w)) && ctx.parents == s.parents
    requires RuleStep(ctx, w, rule, w')
    requires rule.id in ctx.applied || (rule.id !in w.annotation && rule.id !in ConfigsOf(s, cl))
    ensures Inv(During(s, cl, w'))
  {
    if rule.id in ctx.applied || rule.id in w.issues
      || HasIssue(ctx.conv, AllPaths(rule.injections), InjectedPaths(ctx.applied)) {
      assert During(s, cl, w') == During(s, cl, w);
    } else {
      GenerateInv(s, cl, ctx, w, rule, w');
    }
  }

  lemma GenerateInv(s: State, cl: string, ctx: Context, w: Work, rule: Rule, w': Work)
    requires cl in s.clusters && Inv(During(s, cl, w)) && ctx.parents == s.parents
    requires GenerateStep(ctx, w, rule, w') && rule.id !in w.annotation && rule.id !in ConfigsOf(s, cl)
    ensures Inv(During(s, cl, w'))
  {
    var injs := NormRule(ctx.conv, rule).injections;
    var trace, raw :| GenerateSpec(w.ipam, injs, ctx.parents, trace, raw, w'.ipam) && Recorded(ctx, w, rule, raw, w');
    match raw {
      case None =>
        FailureAddsChildren(During(s, cl, w), injs, trace, w'.ipam);
        FailedRuleInv(During(s, cl, w), During(s, cl, w'));
      case Some(m) =>
        RecordedFields(ctx, w, rule, m, w');
        GeneratedRuleInv(s, cl, w, rule.id, injs, trace, w');
    }
  }

  lemma RecordedFields(ctx: Context, w: Work, rule: Rule, raw: map<string, Prefix>, w': Work)
    requires Recorded(ctx, w, rule, Some(raw), w')
    ensures w'.annotation == w.annotation[rule.id := AsInjections(raw)]
  {
  }

  lemma GeneratedRuleInv(s: State, cl: string, w: Work, r: RuleId, injs: seq<Injection>, trace: seq<Pick>, w': Work)
    requires cl in s.clusters && Inv(During(s, cl, w))
    requires |trace| <= |injs| && ValidTrace(w.ipam, injs, s.parents, trace)
    requires w'.ipam == StateAfter(w.ipam, trace)
    requires w'.annotation == w.annotation[r := AsInjections(RawAfter(injs, trace))]
    requires r !in w.annotation && r !in ConfigsOf(s, cl)
    ensures Inv(During(s, cl, w'))
  {
    RawBlocks(injs, trace);
    DuringStep(s, cl, w, w');
    AppliedRuleInv(During(s, cl, w), cl, r, trace, injs, AsInjections(RawAfter(injs, trace)), w'.annotation,
                   During(s, cl, w'));
  }

  lemma DuringStep(s: State, cl: string, w: Work, w': Work)
    ensures var now := During(s, cl, w);
      && ConfigsOf(now, cl) == ConfigsOf(s, cl) && cl in now.clusters && now.clusters[cl] == w.annotation
      && now.parents == s.parents && now.ipam == w.ipam
      && During(s, cl, w') == now.(ipam := w'.ipam, clusters := now.clusters[cl := w'.annotation])
  {
  }

  // ----- All rules -----

  lemma {:induction false} RulesInv(s: State, cl: string, ctx: Context, rules: seq<Rule>, ws: seq<Work>)
    requires cl in s.clusters && ctx.parents == s.parents && NoDuplicates(Ids(rules))
    requires forall r | r in ConfigsOf(s, cl) :: r in ctx.applied
    requires RulesRun(ctx, rules, ws) && Started(ctx, ws[0]) && Inv(During(s, cl, ws[0]))
    ensures Inv(During(s, cl, ws[|rules|]))
  {
    if rules != [] {
      var n := |rules| - 1;
      var init := rules[..n];
      DistinctInit(rules);
      RulesInv(s, cl, ctx, init, ws[..n + 1]);
      RunData(ctx, init, ws[..n + 1]);
      RuleInv(s, cl, ctx, ws[n], rules[n], ws[n + 1]);
    }
  }

  // ----- The new ClusterConfigs -----

  lemma GeneratedOk(injections: Injections, cc: ClusterConfig)
    requires Generated(injections, cc) && AllBlockTexts(injections)
    ensures ConfigOk(cc) && cc.finalizer
    ensures BlockSet(cc.patches) <= RecordedBlocks(injections) && SameValues(injections, cc.patches)
  {
    GeneratedIsAdded(injections, cc);
    SortedConfigOk([], injections, cc.patches);
    forall x | x in cc.patches
      ensures x.path in injections && x == AddPatch(x.path, injections[x.path])
    {
      PatchesAddedMembers([], injections, cc.patches, x);
    }
    forall c | c in BlockSet(cc.patches)
      ensures c in RecordedBlocks(injections)
    {
      BlockSetMembers(cc.patches, c);
      var i :| 0 <= i < |cc.patches| && AddsBlock(cc.patches[i]) && BlockOf(cc.patches[i]) == c;
      var x := cc.patches[i];
      PatchesAddedMembers([], injections, cc.patches, x);
      assert x.path in injections && injections[x.path] == Block(c);
    }
  }

  lemma CreatedInv(s: State, cl: string, w: Work, s': State)
    requires Inv(s) && cl in s.clusters && s.clusters[cl] == w.annotation && CreatesOk(w)
    requires s' == s.(ccs := s.ccs[cl := CreateAll(ConfigsOf(s, cl), w.creates).0])
    ensures Inv(s')
  {
    CreatedData(s, cl, w, s');
    CreatedHoldsNoMore(s, cl, w, s');
    ShrinkInv(s, s');
  }

  lemma CreatedData(s: State, cl: string, w: Work, s': State)
    requires DataOk(s) && cl in s.clusters && s.clusters[cl] == w.annotation && CreatesOk(w)
    requires s' == s.(ccs := s.ccs[cl := CreateAll(ConfigsOf(s, cl), w.creates).0])
    ensures DataOk(s')
  {
    var ccs := ConfigsOf(s, cl);
    var after := CreateAll(ccs, w.creates).0;
    ClusterData(s, cl);
    forall r | r in after
      ensures ConfigOk(after[r]) && after[r].finalizer
      ensures r in w.annotation ==> SameValues(w.annotation[r], after[r].patches)
    {
      CreatedConfig(w.annotation, ccs, w, r);
    }
    assert s' == WithCluster(s, cl, w.annotation, after);
    OneClusterData(s, cl, w.annotation, after);
  }

  lemma CreatedHoldsNoMore(s: State, cl: string, w: Work, s': State)
    requires DataOk(s) && cl in s.clusters && s.clusters[cl] == w.annotation && CreatesOk(w)
    requires s' == s.(ccs := s.ccs[cl := CreateAll(ConfigsOf(s, cl), w.creates).0])
    ensures HoldsNoMore(s, s')
  {
    ClusterData(s, cl);
    forall o, c | InConfig(s', o, c)
      ensures Holds(s, o, c)
    {
      if o.cluster == cl {
        CreatedConfig(w.annotation, ConfigsOf(s, cl), w, o.rule);
        assert o.rule in ConfigsOf(s, cl) ==> HasConfig(s, o);
        assert o.rule !in ConfigsOf(s, cl) ==> InAnnotation(s, o, c);
      } else {
        assert HasConfig(s, o) && ConfigOf(s, o) == ConfigOf(s', o);
      }
    }
  }

  /** After the new ClusterConfigs were created, each one is an old one or lists what the
      annotation records. */
  lemma CreatedConfig(applied: AppliedRules, ccs: ClusterConfigs, w: Work, r: RuleId)
    requires ClusterOk(applied, ccs) && ConfigsOk(ccs) && applied == w.annotation && CreatesOk(w)
    requires r in CreateAll(ccs, w.creates).0
    ensures var cc := CreateAll(ccs, w.creates).0[r];
      && ConfigOk(cc) && cc.finalizer
      && (r in ccs ==> cc == ccs[r])
      && (r !in ccs ==> r in applied && BlockSet(cc.patches) <= RecordedBlocks(applied[r]))
      && (r in applied ==> SameValues(applied[r], cc.patches))
  {
    var cc := CreateAll(ccs, w.creates).0[r];
    CreateKeeps(ccs, w.creates);
    if r !in ccs {
      var i :| 0 <= i < |w.creates| && w.creates[i] == (r, cc);
      GeneratedOk(w.annotation[r], cc);
    }
  }

  // ----- The whole step -----

  /** The system after merging and repairing, before any new rule is applied. */
  function Repaired(s: State, cl: string, merged: AppliedRules, ins: Instruction): State {
    s.(clusters := s.clusters[cl := merged], ccs := s.ccs[cl := Apply(ConfigsOf(s, cl), ins)])
  }

  lemma MergedAndRepairedInv(s: State, cl: string, merged: AppliedRules, ins: Instruction)
    requires Inv(s) && cl in s.clusters
    requires MergedTo(s.clusters[cl], ConfigsOf(s, cl), merged) && CheckSpec(merged, ConfigsOf(s, cl), ins)
    ensures Inv(Repaired(s, cl, merged, ins))
  {
    MergedInv(s, cl, merged);
    var s1 := s.(clusters := s.clusters[cl := merged]);
    RepairedInv(s1, cl, ins, Repaired(s, cl, merged, ins));
  }

  lemma ReconciledInv(s: State, cl: string, rules: seq<Rule>, conv: Conversion, ws: seq<Work>, m: Managed, s': State)
    requires Inv(s) && NoDuplicates(Ids(rules)) && ReconcileWith(s, cl, rules, conv, ws, Some(m), s')
    ensures Inv(s')
  {
    var s2 := Repaired(s, cl, m.merged, m.instruction);
    MergedAndRepairedInv(s, cl, m.merged, m.instruction);
    RepairedRules(m.merged, ConfigsOf(s, cl), m.instruction);
    ReconciledFields(s, cl, m, s');
    RulesAndCreatesInv(s2, cl, Context(m.merged, s.parents, conv), rules, ws, s');
  }

  lemma ReconciledFields(s: State, cl: string, m: Managed, s': State)
    requires cl in s.clusters
    requires s' == s.(ipam := s'.ipam, clusters := s.clusters[cl := m.work.annotation],
                      ccs := s.ccs[cl := AfterReconcile(ConfigsOf(s, cl), m).0])
    ensures var s2 := Repaired(s, cl, m.merged, m.instruction);
      && cl in s2.clusters && s2.clusters[cl] == m.merged && s2.parents == s.parents && s2.ipam == s.ipam
      && ConfigsOf(s2, cl) == Apply(ConfigsOf(s, cl), m.instruction)
      && s'.parents == s2.parents && s'.clusters == s2.clusters[cl := m.work.annotation]
      && s'.ccs == s2.ccs[cl := CreateAll(ConfigsOf(s2, cl), m.work.creates).0]
  {
  }

  lemma RepairedRules(merged: AppliedRules, ccs: ClusterConfigs, ins: Instruction)
    requires CheckSpec(merged, ccs, ins) && forall r | r in ccs :: r in merged
    ensures forall r | r in Apply(ccs, ins) :: r in merged
  {
  }

  lemma RulesAndCreatesInv(s: State, cl: string, ctx: Context, rules: seq<Rule>, ws: seq<Work>, s': State)
    requires Inv(s) && cl in s.clusters && s.clusters[cl] == ctx.applied && ctx.parents == s.parents
    requires NoDuplicates(Ids(rules))
    requires forall r | r in ConfigsOf(s, cl) :: r in ctx.applied
    requires RulesRun(ctx, rules, ws) && Started(ctx, ws[0]) && ws[0].ipam == s.ipam
    requires s'.parents == s.parents && s'.ipam == ws[|rules|].ipam
    requires s'.clusters == s.clusters[cl := ws[|rules|].annotation]
    requires s'.ccs == s.ccs[cl := CreateAll(ConfigsOf(s, cl), ws[|rules|].creates).0]
    ensures Inv(s')
  {
    AllRulesInv(s, cl, ctx, rules, ws);
    RunData(ctx, rules, ws);
    CreatedInv(During(s, cl, ws[|rules|]), cl, ws[|rules|], s');
  }

  lemma AllRulesInv(s: State, cl: string, ctx: Context, rules: seq<Rule>, ws: seq<Work>)
    requires Inv(s) && cl in s.clusters && s.clusters[cl] == ctx.applied && ctx.parents == s.parents
    requires NoDuplicates(Ids(rules))
    requires forall r | r in ConfigsOf(s, cl) :: r in ctx.applied
    requires RulesRun(ctx, rules, ws) && Started(ctx, ws[0]) && ws[0].ipam == s.ipam
    ensures Inv(During(s, cl, ws[|rules|]))
  {
    assert During(s, cl, ws[0]) == s;
    RulesInv(s, cl, ctx, rules, ws);
  }

  lemma ReconcileInv(s: State, cl: string, rules: seq<Rule>, conv: Conversion, s': State)
    requires Inv(s) && ReconcileStep(s, cl, rules, conv, s')
    ensures Inv(s')
  {
    var ws, res :| ReconcileWith(s, cl, rules, conv, ws, res, s');
    match res {
      case None =>
      case Some(m) => ReconciledInv(s, cl, rules, conv, ws, m, s');
    }
  }

  // ----- When some writes fail -----

  /** No recorded value and no patch is dropped or changed. */
  ghost predicate OnlyAdds(applied: AppliedRules, ccs: ClusterConfigs, applied': AppliedRules, ccs': ClusterConfigs) {
    && (forall r, p | r in applied && p in applied[r] ::
          r in applied' && p in applied'[r] && applied'[r][p] == applied[r][p])
    && (forall r, x | r in ccs && x in ccs[r].patches :: r in ccs' && x in ccs'[r].patches)
  }

  /** So it is with the one cluster whose annotation may change. */
  ghost predicate AddsTo(s: State, cl: string, intended: State) {
    && cl in s.clusters && cl in intended.clusters
    && intended.clusters == s.clusters[cl := intended.clusters[cl]]
    && OnlyAdds(s.clusters[cl], ConfigsOf(s, cl), intended.clusters[cl], ConfigsOf(intended, cl))
  }

  lemma PartClusterOk(applied: AppliedRules, ccs: ClusterConfigs, applied': AppliedRules, ccs': ClusterConfigs,
                      part: AppliedRules, partCcs: ClusterConfigs)
    requires ClusterOk(applied, ccs) && ConfigsOk(ccs) && ClusterOk(applied', ccs') && ConfigsOk(ccs')
    requires OnlyAdds(applied, ccs, applied', ccs') && (part == applied || part == applied')
    requires forall r :: PartOfConfigs(ccs, ccs', partCcs, r)
    ensures ClusterOk(part, partCcs) && ConfigsOk(partCcs)
  {
    forall r | r in partCcs
      ensures ConfigOk(partCcs[r]) && partCcs[r].finalizer && (r in part ==> SameValues(part[r], partCcs[r].patches))
    {
      assert PartOfConfigs(ccs, ccs', partCcs, r);
    }
  }

  lemma PartHoldsNoMore(s: State, cl: string, intended: State, s': State)
    requires DataOk(intended) && AddsTo(s, cl, intended) && PartlyWritten(s, intended, cl, s')
    ensures HoldsNoMore(intended, s')
  {
    ClusterData(intended, cl);
    forall o, c | InConfig(s', o, c)
      ensures InConfig(intended, o, c)
    {
      if o.cluster == cl {
        assert PartOfConfigs(ConfigsOf(s, cl), ConfigsOf(intended, cl), ConfigsOf(s', cl), o.rule);
        PartOfList(ConfigsOf(s, cl), ConfigsOf(intended, cl), ConfigsOf(s', cl), o.rule, c);
      } else {
        assert ConfigOf(s', o) == ConfigOf(intended, o);
      }
    }
    forall o, c | InAnnotation(s', o, c)
      ensures InAnnotation(intended, o, c)
    {
      var p :| p in s'.clusters[o.cluster][o.rule] && s'.clusters[o.cluster][o.rule][p] == Block(c);
    }
  }

  lemma PartOfList(was: ClusterConfigs, intended: ClusterConfigs, now: ClusterConfigs, r: RuleId, c: Prefix)
    requires r in now && PartOfConfigs(was, intended, now, r) && c in BlockSet(now[r].patches)
    requires forall x | r in was && x in was[r].patches :: r in intended && x in intended[r].patches
    ensures r in intended && c in BlockSet(intended[r].patches)
  {
    BlockSetMembers(now[r].patches, c);
    var i :| 0 <= i < |now[r].patches| && AddsBlock(now[r].patches[i]) && BlockOf(now[r].patches[i]) == c;
    var x := now[r].patches[i];
    assert x in now[r].patches && x in intended[r].patches;
    BlockSetMembers(intended[r].patches, c);
  }

  lemma PartData(s: State, cl: string, intended: State, s': State)
    requires DataOk(s) && DataOk(intended) && AddsTo(s, cl, intended) && PartlyWritten(s, intended, cl, s')
    ensures DataOk(s')
  {
    var part, partCcs := s'.clusters[cl], ConfigsOf(s', cl);
    PartFields(s, cl, intended, s');
    ClusterData(s, cl);
    ClusterData(intended, cl);
    PartClusterOk(s.clusters[cl], ConfigsOf(s, cl), intended.clusters[cl], ConfigsOf(intended, cl), part, partCcs);
    OneClusterData(intended, cl, part, partCcs);
  }

  lemma PartFields(s: State, cl: string, intended: State, s': State)
    requires AddsTo(s, cl, intended) && PartlyWritten(s, intended, cl, s')
    ensures cl in s'.clusters && (s'.clusters[cl] == s.clusters[cl] || s'.clusters[cl] == intended.clusters[cl])
    ensures s' == WithCluster(intended, cl, s'.clusters[cl], ConfigsOf(s', cl))
  {
    assert s'.clusters == intended.clusters[cl := s'.clusters[cl]];
  }

  lemma PartInv(s: State, cl: string, intended: State, s': State)
    requires Inv(s) && Inv(intended) && AddsTo(s, cl, intended) && PartlyWritten(s, intended, cl, s')
    ensures Inv(s')
  {
    PartHoldsNoMore(s, cl, intended, s');
    PartData(s, cl, intended, s');
    ShrinkInv(intended, s');
  }

  lemma ReconcileAddsTo(s: State, cl: string, rules: seq<Rule>, conv: Conversion, intended: State)
    requires ReconcileStep(s, cl, rules, conv, intended)
    ensures AddsTo(s, cl, intended)
  {
    var ws, res :| ReconcileWith(s, cl, rules, conv, ws, res, intended);
    if res.Some? {
      ReconcileKeepsRecorded(s.ipam, s.clusters[cl], ConfigsOf(s, cl), rules, s.parents, conv, ws, res.value,
                             intended.ipam);
    }
  }

  lemma RepairAddsTo(s: State, cl: string, intended: State)
    requires RepairStep(s, cl, intended)
    ensures AddsTo(s, cl, intended)
  {
    var ins :| CheckSpec(s.clusters[cl], ConfigsOf(s, cl), ins)
      && intended == s.(ccs := s.ccs[cl := Apply(ConfigsOf(s, cl), ins)]);
    RepairOnlyAdds(s.clusters[cl], ConfigsOf(s, cl), ins);
  }

  lemma RepairOnlyAdds(applied: AppliedRules, ccs: ClusterConfigs, ins: Instruction)
    requires CheckSpec(applied, ccs, ins)
    ensures OnlyAdds(applied, ccs, applied, Apply(ccs, ins))
  {
    RepairComplete(applied, ccs, ins);
  }

  lemma ReconcilePartlyInv(s: State, cl: string, rules: seq<Rule>, conv: Conversion, s': State)
    requires Inv(s) && ReconcilePartlyStep(s, cl, rules, conv, s')
    ensures Inv(s')
  {
    var intended :| ReconcileStep(s, cl, rules, conv, intended) && PartlyWritten(s, intended, cl, s');
    ReconcileInv(s, cl, rules, conv, intended);
    ReconcileAddsTo(s, cl, rules, conv, intended);
    PartInv(s, cl, intended, s');
  }

  lemma RepairPartlyInv(s: State, cl: string, s': State)
    requires Inv(s) && RepairPartlyStep(s, cl, s')
    ensures Inv(s')
  {
    var intended :| RepairStep(s, cl, intended) && PartlyWritten(s, intended, cl, s');
    RepairInv(s, cl, intended);
    RepairAddsTo(s, cl, intended);
    PartInv(s, cl, intended, s');
  }
}
