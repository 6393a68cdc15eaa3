/** What a reconcile guarantees about the two copies of the recorded injections, the
    annotation and the ClusterConfigs: nothing recorded changes, both copies agree
    afterwards, and a second reconcile changes nothing. */
module InjectionTheorems {
  import opened Prefixes
  import opened Forest
  import opened GoIpam
  import opened Config
  import opened Patches
  import opened Generation
  import opened Repair
  import opened InjectionManagement

  // ----- Merging -----

  /** Merging keeps what is recorded and adds values of patches only. */
  lemma {:induction false} MergeKeepsRecorded(recorded: Injections, patches: seq<Patch>)
    requires MergePatches(recorded, patches).Some?
    ensures var m := MergePatches(recorded, patches).value;
      && (forall p | p in recorded :: p in m && m[p] == recorded[p])
      && (forall p :: p in m <==> p in recorded || HasPath(patches, p))
      && (forall p | p in m && p !in recorded ::
            exists i :: 0 <= i < |patches| && patches[i].path == p && patches[i].value == Str(m[p]))
  {
    if patches != [] {
      var n := |patches| - 1;
      var init := patches[..n];
      MergeKeepsRecorded(recorded, init);
      assert forall i | 0 <= i < n :: init[i] == patches[i];
      var before, m := MergePatches(recorded, init).value, MergePatches(recorded, patches).value;
      forall p
        ensures HasPath(patches, p) <==> HasPath(init, p) || p == patches[n].path
      {
        if i :| 0 <= i < |init| && init[i].path == p {
          assert patches[i].path == p;
        }
      }
      forall p | p in m && p !in recorded
        ensures exists i :: 0 <= i < |patches| && patches[i].path == p && patches[i].value == Str(m[p])
      {
        if p in before {
          var i :| 0 <= i < |init| && init[i].path == p && init[i].value == Str(before[p]);
          assert patches[i].path == p && patches[i].value == Str(m[p]);
        } else {
          assert patches[n].path == p && patches[n].value == Str(m[p]);
        }
      }
    }
  }

  lemma {:induction false} MergeOfRecorded(recorded: Injections, patches: seq<Patch>)
    requires forall i | 0 <= i < |patches| :: patches[i].path in recorded
    ensures MergePatches(recorded, patches) == Some(recorded)
  {
    if patches != [] {
      MergeOfRecorded(recorded, patches[..|patches| - 1]);
    }
  }

  /** The first patch with the path. */
  ghost predicate FirstWithPath(patches: seq<Patch>, i: int) {
    0 <= i < |patches| && forall j | 0 <= j < i :: patches[j].path != patches[i].path
  }

  ghost predicate FirstOnesRead(recorded: Injections, patches: seq<Patch>) {
    forall i | FirstWithPath(patches, i) && patches[i].path !in recorded :: patches[i].value.Str?
  }

  /** Merging fails exactly if the first patch at some path not recorded has no string. */
  lemma {:induction false} MergeFailsIff(recorded: Injections, patches: seq<Patch>)
    ensures MergePatches(recorded, patches).None? <==> !FirstOnesRead(recorded, patches)
  {
    if patches != [] {
      var n := |patches| - 1;
      var init, last := patches[..n], patches[n];
      MergeFailsIff(recorded, init);
      FirstOfOneMore(patches);
      if MergePatches(recorded, init).Some? {
        MergeKeepsRecorded(recorded, init);
      }
    }
  }

  lemma FirstOfOneMore(patches: seq<Patch>)
    requires patches != []
    ensures var n := |patches| - 1;
      && (forall i | i < n :: FirstWithPath(patches[..n], i) <==> FirstWithPath(patches, i))
      && (FirstWithPath(patches, n) <==> !HasPath(patches[..n], patches[n].path))
  {
    var n := |patches| - 1;
    assert forall i | 0 <= i < n :: patches[..n][i] == patches[i];
  }

  /** Otherwise every path not recorded gets the value of its first patch. */
  lemma {:induction false} MergeTakesFirst(recorded: Injections, patches: seq<Patch>, i: nat)
    requires MergePatches(recorded, patches).Some? && FirstWithPath(patches, i) && patches[i].path !in recorded
    ensures var m := MergePatches(recorded, patches).value;
      patches[i].path in m && patches[i].value == Str(m[patches[i].path])
  {
    var n := |patches| - 1;
    FirstOfOneMore(patches);
    if i < n {
      MergeTakesFirst(recorded, patches[..n], i);
    } else {
      MergeKeepsRecorded(recorded, patches[..n]);
    }
  }

  // ----- The loop over the rules -----

  function Ids(rules: seq<Rule>): (r: seq<RuleId>)
    ensures |r| == |rules| && forall i | 0 <= i < |r| :: r[i] == rules[i].id
  {
    seq(|rules|, i requires 0 <= i < |rules| => rules[i].id)
  }

  function Created(creates: seq<(RuleId, ClusterConfig)>): (r: seq<RuleId>)
    ensures |r| == |creates| && forall i | 0 <= i < |r| :: r[i] == creates[i].0
  {
    seq(|creates|, i requires 0 <= i < |creates| => creates[i].0)
  }

  /** What holds of the loop state after the given rules. */
  ghost predicate WorkOk(ctx: Context, rules: seq<Rule>, w: Work) {
    && (forall r | r in ctx.applied :: r in w.annotation && w.annotation[r] == ctx.applied[r])
    && (forall r | r in w.annotation :: r in ctx.applied || r in Created(w.creates))
    && (forall i | 0 <= i < |w.creates| :: w.creates[i].0 in w.annotation && w.creates[i].0 !in ctx.applied)
    && (forall r | r in Created(w.creates) :: r in Ids(rules))
  }

  ghost predicate CreatesOk(w: Work) {
    && NoDuplicates(Created(w.creates))
    && (forall i | 0 <= i < |w.creates| ::
          w.creates[i].0 in w.annotation && Generated(w.annotation[w.creates[i].0], w.creates[i].1))
  }

  ghost predicate Started(ctx: Context, w: Work) {
    w.annotation == ctx.applied && w.creates == [] && w.issues == {} && w.skipped == {} && !w.failed
  }

  ghost predicate Extends(w: Work, r: RuleId, w': Work) {
    exists injections, cc :: Generated(injections, cc)
      && w'.annotation == w.annotation[r := injections] && w'.creates == w.creates + [(r, cc)]
  }

  /** One rule leaves annotation and new ClusterConfigs alone, or extends both by the same
      injections; a rule that ends up in neither has left an error or an issue. */
  lemma RuleData(ctx: Context, w: Work, rule: Rule, w': Work)
    requires RuleStep(ctx, w, rule, w')
    ensures (w'.annotation == w.annotation && w'.creates == w.creates)
      || (rule.id !in ctx.applied && Extends(w, rule.id, w'))
    ensures w.failed ==> w'.failed
    ensures w.issues <= w'.issues
    ensures !w'.failed && w'.issues == {} ==> rule.id in ctx.applied || rule.id in w'.annotation
  {
    if rule.id in ctx.applied {
    } else if rule.id in w.issues || HasIssue(ctx.conv, AllPaths(rule.injections), InjectedPaths(ctx.applied)) {
      assert rule.id in w'.issues;
    } else {
      var trace, raw :| GenerateSpec(w.ipam, NormRule(ctx.conv, rule).injections, ctx.parents, trace, raw, w'.ipam)
        && Recorded(ctx, w, rule, raw, w');
    }
  }

  lemma IdsGrow(rules: seq<Rule>, rule: Rule)
    ensures Ids(rules + [rule]) == Ids(rules) + [rule.id]
  {
  }

  lemma CreatedGrows(creates: seq<(RuleId, ClusterConfig)>, r: RuleId, cc: ClusterConfig)
    ensures Created(creates + [(r, cc)]) == Created(creates) + [r]
  {
  }

  lemma ExtendWork(ctx: Context, rules: seq<Rule>, w: Work, rule: Rule, w': Work)
    requires WorkOk(ctx, rules, w) && rule.id !in ctx.applied && Extends(w, rule.id, w')
    ensures WorkOk(ctx, rules + [rule], w')
  {
    var injections, cc :| Generated(injections, cc)
      && w'.annotation == w.annotation[rule.id := injections] && w'.creates == w.creates + [(rule.id, cc)];
    IdsGrow(rules, rule);
    CreatedGrows(w.creates, rule.id, cc);
  }

  lemma ExtendCreates(ctx: Context, rules: seq<Rule>, w: Work, rule: Rule, w': Work)
    requires WorkOk(ctx, rules, w) && CreatesOk(w) && rule.id !in Ids(rules) && Extends(w, rule.id, w')
    ensures CreatesOk(w')
  {
    var injections, cc :| Generated(injections, cc)
      && w'.annotation == w.annotation[rule.id := injections] && w'.creates == w.creates + [(rule.id, cc)];
    CreatedGrows(w.creates, rule.id, cc);
    forall i | 0 <= i < |w.creates|
      ensures w.creates[i].0 != rule.id
    {
      assert w.creates[i].0 == Created(w.creates)[i];
    }
  }

  lemma KeepWork(ctx: Context, rules: seq<Rule>, w: Work, rule: Rule, w': Work)
    requires WorkOk(ctx, rules, w) && w'.annotation == w.annotation && w'.creates == w.creates
    ensures WorkOk(ctx, rules + [rule], w') && (CreatesOk(w) ==> CreatesOk(w'))
  {
    IdsGrow(rules, rule);
  }

  lemma RuleWork(ctx: Context, rules: seq<Rule>, w: Work, rule: Rule, w': Work)
    requires RuleStep(ctx, w, rule, w') && WorkOk(ctx, rules, w)
    ensures WorkOk(ctx, rules + [rule], w')
    ensures CreatesOk(w) && rule.id !in Ids(rules) ==> CreatesOk(w')
    ensures forall r | r in w.annotation :: r in w'.annotation
    ensures !w'.failed && w'.issues == {} ==> !w.failed && w.issues == {} && rule.id in w'.annotation
  {
    RuleData(ctx, w, rule, w');
    if w'.annotation == w.annotation && w'.creates == w.creates {
      KeepWork(ctx, rules, w, rule, w');
    } else {
      ExtendWork(ctx, rules, w, rule, w');
      if CreatesOk(w) && rule.id !in Ids(rules) {
        ExtendCreates(ctx, rules, w, rule, w');
      }
    }
  }

  lemma DistinctInit(rules: seq<Rule>)
    requires rules != []
    ensures rules == rules[..|rules| - 1] + [rules[|rules| - 1]]
    ensures forall r | r in Ids(rules) :: r in Ids(rules[..|rules| - 1]) || r == rules[|rules| - 1].id
    ensures NoDuplicates(Ids(rules)) ==>
      NoDuplicates(Ids(rules[..|rules| - 1])) && rules[|rules| - 1].id !in Ids(rules[..|rules| - 1])
  {
    var n := |rules| - 1;
    assert rules == rules[..n] + [rules[n]];
    IdsGrow(rules[..n], rules[n]);
    assert forall i | 0 <= i < n :: Ids(rules[..n])[i] == Ids(rules)[i];
  }

  ghost predicate DataAfter(ctx: Context, rules: seq<Rule>, w: Work) {
    && WorkOk(ctx, rules, w)
    && (NoDuplicates(Ids(rules)) ==> CreatesOk(w))
    && (!w.failed && w.issues == {} ==> forall r | r in Ids(rules) :: r in w.annotation)
  }

  lemma OneMoreRule(ctx: Context, rules: seq<Rule>, w: Work, w': Work)
    requires rules != [] && DataAfter(ctx, rules[..|rules| - 1], w) && RuleStep(ctx, w, rules[|rules| - 1], w')
    ensures DataAfter(ctx, rules, w')
  {
    DistinctInit(rules);
    RuleWork(ctx, rules[..|rules| - 1], w, rules[|rules| - 1], w');
  }

  lemma {:induction false} RunData(ctx: Context, rules: seq<Rule>, ws: seq<Work>)
    requires RulesRun(ctx, rules, ws) && Started(ctx, ws[0])
    ensures DataAfter(ctx, rules, ws[|rules|])
  {
    if rules != [] {
      var n := |rules| - 1;
      LastStep(ctx, rules, ws);
      RunData(ctx, rules[..n], ws[..n + 1]);
      OneMoreRule(ctx, rules, ws[n], ws[n + 1]);
    } else {
      StartData(ctx, ws[0]);
    }
  }

  lemma LastStep(ctx: Context, rules: seq<Rule>, ws: seq<Work>)
    requires RulesRun(ctx, rules, ws) && rules != []
    ensures |ws| == |rules| + 1 && RulesRun(ctx, rules[..|rules| - 1], ws[..|rules|])
    ensures RuleStep(ctx, ws[|rules| - 1], rules[|rules| - 1], ws[|rules|])
  {
  }

  lemma StartData(ctx: Context, w: Work)
    requires Started(ctx, w)
    ensures DataAfter(ctx, [], w)
  {
  }

  // ----- Creating the new ClusterConfigs -----

  lemma {:induction false} CreateKeeps(ccs: ClusterConfigs, creates: seq<(RuleId, ClusterConfig)>)
    ensures var after := CreateAll(ccs, creates).0;
      && (forall r | r in ccs :: r in after && after[r] == ccs[r])
      && (forall r | r in after && r !in ccs :: (r, after[r]) in creates)
      && (forall i | 0 <= i < |creates| :: creates[i].0 in after)
  {
    if creates != [] {
      var n := |creates| - 1;
      CreateKeeps(ccs, creates[..n]);
      assert creates == creates[..n] + [creates[n]];
    }
  }

  lemma CreatedInit(creates: seq<(RuleId, ClusterConfig)>)
    requires creates != []
    ensures Created(creates) == Created(creates[..|creates| - 1]) + [creates[|creates| - 1].0]
  {
  }

  /** There is an error exactly if a name is taken, by what existed or by an earlier creation. */
  lemma {:induction false} NameTakenIff(ccs: ClusterConfigs, creates: seq<(RuleId, ClusterConfig)>)
    ensures CreateAll(ccs, creates).1
      <==> (NoDuplicates(Created(creates)) && forall r | r in Created(creates) :: r !in ccs)
  {
    if creates != [] {
      var n := |creates| - 1;
      var init, last := Created(creates[..n]), creates[n].0;
      NameTakenIff(ccs, creates[..n]);
      CreateKeeps(ccs, creates[..n]);
      CreatedInit(creates);
      assert forall i | 0 <= i < n :: Created(creates)[i] == init[i];
      assert NoDuplicates(Created(creates)) <==> NoDuplicates(init) && last !in init;
    }
  }

  /** Of several creations for one rule the first one counts. */
  lemma {:induction false} FirstCreationCounts(ccs: ClusterConfigs, creates: seq<(RuleId, ClusterConfig)>, i: nat)
    requires i < |creates| && creates[i].0 !in ccs && forall j | 0 <= j < i :: creates[j].0 != creates[i].0
    ensures var after := CreateAll(ccs, creates).0;
      creates[i].0 in after && after[creates[i].0] == creates[i].1
  {
    var n := |creates| - 1;
    CreateKeeps(ccs, creates[..n]);
    if i < n {
      FirstCreationCounts(ccs, creates[..n], i);
    }
  }

  // ----- One reconcile -----

  /** The ClusterConfigs after a reconcile, and whether all of them could be created. */
  function AfterReconcile(ccs: ClusterConfigs, m: Managed): (ClusterConfigs, bool) {
    CreateAll(Apply(ccs, m.instruction), m.work.creates)
  }

  /** Immutability: whatever the rules and the configured parents, a reconcile changes or
      drops no recorded injection and no patch of an existing ClusterConfig. */
  lemma ReconcileKeepsRecorded(a: Allocator, annotation: AppliedRules, ccs: ClusterConfigs, rules: seq<Rule>,
                               parents: map<string, seq<Prefix>>, conv: Conversion, ws: seq<Work>, m: Managed,
                               b: Allocator)
    requires ManageSpec(a, annotation, ccs, rules, parents, conv, ws, Some(m), b)
    ensures forall r, p | r in annotation && p in annotation[r] ::
      r in m.work.annotation && p in m.work.annotation[r] && m.work.annotation[r][p] == annotation[r][p]
    ensures forall r, x | r in ccs && x in ccs[r].patches ::
      r in AfterReconcile(ccs, m).0 && x in AfterReconcile(ccs, m).0[r].patches
  {
    RunData(Context(m.merged, parents, conv), rules, ws);
    forall r, p | r in annotation && p in annotation[r]
      ensures p in m.merged[r] && m.merged[r][p] == annotation[r][p]
    {
      MergeKeepsRecorded(annotation[r], if r in ccs then ccs[r].patches else []);
    }
    RepairComplete(m.merged, ccs, m.instruction);
    CreateKeeps(Apply(ccs, m.instruction), m.work.creates);
  }

  /** Same rules, and for each rule the same paths.  A rule with nothing to inject may be
      recorded without a ClusterConfig. */
  ghost predicate CopiesAgree(annotation: AppliedRules, ccs: ClusterConfigs) {
    && (forall r | r in ccs :: r in annotation)
    && (forall r | r in annotation && annotation[r] != map[] :: r in ccs)
    && (forall r, p | r in ccs :: HasPath(ccs[r].patches, p) <==> p in annotation[r])
  }

  /** There is one value for the path: the one recorded, if any, and the one that every patch
      for the path adds. */
  ghost predicate OneValue(recorded: Injections, patches: seq<Patch>, p: string) {
    exists t :: HasValue(recorded, patches, p, t)
  }

  ghost predicate HasValue(recorded: Injections, patches: seq<Patch>, p: string, t: Text) {
    (p in recorded ==> recorded[p] == t) && forall x | x in patches && x.path == p :: x == AddPatch(p, t)
  }

  ghost predicate AgreesAt(annotation: AppliedRules, ccs: ClusterConfigs, r: RuleId, p: string) {
    r in ccs ==> OneValue(if r in annotation then annotation[r] else map[], ccs[r].patches, p)
  }

  ghost predicate Settled(ccs: ClusterConfigs) {
    forall r | r in ccs :: ccs[r].finalizer || ccs[r].deleting
  }

  lemma RepairedPathsAgree(annotation: AppliedRules, ccs: ClusterConfigs, merged: AppliedRules, ins: Instruction,
                           r: RuleId, p: string)
    requires MergedTo(annotation, ccs, merged) && CheckSpec(merged, ccs, ins)
    requires r in Apply(ccs, ins)
    ensures r in merged && (HasPath(Apply(ccs, ins)[r].patches, p) <==> p in merged[r])
  {
    var after := Apply(ccs, ins);
    if p in merged[r] {
      RepairedHasPath(merged, ccs, ins, r, p);
    }
    if i :| 0 <= i < |after[r].patches| && after[r].patches[i].path == p {
      var x := after[r].patches[i];
      assert x in after[r].patches;
      RepairAddsRecordedOnly(merged, ccs, ins, r, x);
      if r in ccs && x in ccs[r].patches {
        MergeKeepsRecorded(if r in annotation then annotation[r] else map[], ccs[r].patches);
      }
    }
  }

  lemma GeneratedPaths(injections: Injections, cc: ClusterConfig, p: string)
    requires Generated(injections, cc)
    ensures HasPath(cc.patches, p) <==> p in injections
  {
    GeneratedIsAdded(injections, cc);
    PatchesAddedPaths([], injections, cc.patches, p);
  }

  /** After a reconcile without error the annotation and the ClusterConfigs name the same
      rules and the same paths, every rule that applies is recorded, and every
      ClusterConfig not in deletion holds the finalizer. */
  lemma CopiesAgreeAfterwards(a: Allocator, annotation: AppliedRules, ccs: ClusterConfigs, rules: seq<Rule>,
                              parents: map<string, seq<Prefix>>, conv: Conversion, ws: seq<Work>, m: Managed,
                              b: Allocator)
    requires ManageSpec(a, annotation, ccs, rules, parents, conv, ws, Some(m), b)
    requires NoDuplicates(Ids(rules)) && !m.work.failed && m.work.issues == {}
    ensures AfterReconcile(ccs, m).1
    ensures CopiesAgree(m.work.annotation, AfterReconcile(ccs, m).0)
    ensures Settled(AfterReconcile(ccs, m).0)
    ensures forall r | r in Ids(rules) :: r in m.work.annotation
  {
    var ctx := Context(m.merged, parents, conv);
    RunData(ctx, rules, ws);
    NewConfigsCreated(annotation, ccs, m, ctx, rules);
    forall r | r in AfterReconcile(ccs, m).0
      ensures r in m.work.annotation && (AfterReconcile(ccs, m).0[r].finalizer || AfterReconcile(ccs, m).0[r].deleting)
      ensures forall p :: HasPath(AfterReconcile(ccs, m).0[r].patches, p) <==> p in m.work.annotation[r]
    {
      AfterRulePaths(annotation, ccs, m, ctx, rules, r);
    }
    forall r | r in m.work.annotation && m.work.annotation[r] != map[]
      ensures r in AfterReconcile(ccs, m).0
    {
      RecordedHasConfig(ccs, m, ctx, rules, r);
    }
  }

  lemma NewConfigsCreated(annotation: AppliedRules, ccs: ClusterConfigs, m: Managed, ctx: Context, rules: seq<Rule>)
    requires MergedTo(annotation, ccs, m.merged) && CheckSpec(m.merged, ccs, m.instruction)
    requires ctx.applied == m.merged && WorkOk(ctx, rules, m.work) && CreatesOk(m.work)
    ensures AfterReconcile(ccs, m).1
  {
    forall i | 0 <= i < |m.work.creates|
      ensures m.work.creates[i].0 !in Apply(ccs, m.instruction)
    {
      assert m.work.creates[i].0 !in m.merged;
    }
    NameTakenIff(Apply(ccs, m.instruction), m.work.creates);
  }

  lemma RecordedHasConfig(ccs: ClusterConfigs, m: Managed, ctx: Context, rules: seq<Rule>, r: RuleId)
    requires CheckSpec(m.merged, ccs, m.instruction) && ctx.applied == m.merged && WorkOk(ctx, rules, m.work)
    requires r in m.work.annotation && m.work.annotation[r] != map[]
    ensures r in AfterReconcile(ccs, m).0
  {
    CreateKeeps(Apply(ccs, m.instruction), m.work.creates);
    if r !in m.merged {
      var i :| 0 <= i < |m.work.creates| && Created(m.work.creates)[i] == r;
      assert m.work.creates[i].0 in AfterReconcile(ccs, m).0;
    } else {
      assert r in ccs || NeedsCreate(m.merged, ccs, r);
    }
  }

  lemma AfterRulePaths(annotation: AppliedRules, ccs: ClusterConfigs, m: Managed, ctx: Context, rules: seq<Rule>,
                       r: RuleId)
    requires MergedTo(annotation, ccs, m.merged) && CheckSpec(m.merged, ccs, m.instruction)
    requires ctx.applied == m.merged && WorkOk(ctx, rules, m.work) && CreatesOk(m.work)
    requires r in AfterReconcile(ccs, m).0
    ensures r in m.work.annotation
    ensures AfterReconcile(ccs, m).0[r].finalizer || AfterReconcile(ccs, m).0[r].deleting
    ensures forall p :: HasPath(AfterReconcile(ccs, m).0[r].patches, p) <==> p in m.work.annotation[r]
  {
    var repaired, after := Apply(ccs, m.instruction), AfterReconcile(ccs, m).0;
    CreateKeeps(repaired, m.work.creates);
    if r in repaired {
      RepairRestoresFinalizer(m.merged, ccs, m.instruction, r);
      forall p
        ensures HasPath(after[r].patches, p) <==> p in m.work.annotation[r]
      {
        RepairedPathsAgree(annotation, ccs, m.merged, m.instruction, r, p);
      }
    } else {
      var i :| 0 <= i < |m.work.creates| && m.work.creates[i] == (r, after[r]);
      assert Generated(m.work.annotation[r], after[r]);
      forall p
        ensures HasPath(after[r].patches, p) <==> p in m.work.annotation[r]
      {
        GeneratedPaths(m.work.annotation[r], after[r], p);
      }
    }
  }

  lemma {:induction false} OnlySkips(ctx: Context, rules: seq<Rule>, ws: seq<Work>)
    requires RulesRun(ctx, rules, ws) && forall r | r in Ids(rules) :: r in ctx.applied
    ensures ws[|rules|] == ws[0].(skipped := ws[|rules|].skipped)
  {
    if rules != [] {
      var n := |rules| - 1;
      assert rules == rules[..n] + [rules[n]];
      IdsGrow(rules[..n], rules[n]);
      OnlySkips(ctx, rules[..n], ws[..n + 1]);
      assert rules[n].id == Ids(rules)[n];
    }
  }

  /** A reconcile that starts with agreeing copies and all rules recorded changes nothing. */
  lemma ReconcileOfSettled(a: Allocator, annotation: AppliedRules, ccs: ClusterConfigs, rules: seq<Rule>,
                           parents: map<string, seq<Prefix>>, conv: Conversion, ws: seq<Work>, res: Option<Managed>,
                           b: Allocator)
    requires ManageSpec(a, annotation, ccs, rules, parents, conv, ws, res, b)
    requires CopiesAgree(annotation, ccs) && Settled(ccs) && forall r | r in Ids(rules) :: r in annotation
    ensures res.Some? && b == a
    ensures res.value.work.annotation == annotation && AfterReconcile(ccs, res.value) == (ccs, true)
    ensures !res.value.work.failed && res.value.work.issues == {}
  {
    forall r | r in annotation || r in ccs
      ensures MergeRule(annotation, ccs, r) == Some(annotation[r])
    {
      var patches := if r in ccs then ccs[r].patches else [];
      forall i | 0 <= i < |patches|
        ensures patches[i].path in annotation[r]
      {
        assert HasPath(patches, patches[i].path);
      }
      MergeOfRecorded(annotation[r], patches);
    }
    var m := res.value;
    assert m.merged == annotation;
    NothingMissing(annotation, ccs, m.instruction);
    OnlySkips(Context(m.merged, parents, conv), rules, ws);
  }

  lemma NothingMissing(annotation: AppliedRules, ccs: ClusterConfigs, ins: Instruction)
    requires CopiesAgree(annotation, ccs) && Settled(ccs) && CheckSpec(annotation, ccs, ins)
    ensures Apply(ccs, ins) == ccs
  {
    forall r
      ensures r !in ins.creates && r !in ins.updates
    {
      if r in ccs {
        assert MissingOf(annotation, ccs, r) == map[];
      }
    }
  }

  /** Convergence: after a reconcile without error both copies agree, and reconciling again
      with the same rules changes neither them nor the allocator and finds no error. */
  lemma ReconcileConverges(a: Allocator, annotation: AppliedRules, ccs: ClusterConfigs, rules: seq<Rule>,
                           parents: map<string, seq<Prefix>>, conv: Conversion, ws: seq<Work>, m: Managed, b: Allocator,
                           ws2: seq<Work>, res2: Option<Managed>, c: Allocator)
    requires ManageSpec(a, annotation, ccs, rules, parents, conv, ws, Some(m), b)
    requires NoDuplicates(Ids(rules)) && !m.work.failed && m.work.issues == {}
    requires ManageSpec(b, m.work.annotation, AfterReconcile(ccs, m).0, rules, parents, conv, ws2, res2, c)
    ensures CopiesAgree(m.work.annotation, AfterReconcile(ccs, m).0)
    ensures c == b && res2.Some? && res2.value.work.annotation == m.work.annotation
    ensures AfterReconcile(AfterReconcile(ccs, m).0, res2.value) == (AfterReconcile(ccs, m).0, true)
    ensures !res2.value.work.failed && res2.value.work.issues == {}
  {
    CopiesAgreeAfterwards(a, annotation, ccs, rules, parents, conv, ws, m, b);
    ReconcileOfSettled(b, m.work.annotation, AfterReconcile(ccs, m).0, rules, parents, conv, ws2, res2, c);
  }

  /** Where the two copies agreed on a path of a rule before, they agree afterwards, and so they
      do on all new ones. */
  lemma ValuesAgreeAfterwards(a: Allocator, annotation: AppliedRules, ccs: ClusterConfigs, rules: seq<Rule>,
                              parents: map<string, seq<Prefix>>, conv: Conversion, ws: seq<Work>, m: Managed,
                              b: Allocator,
                              r: RuleId, p: string)
    requires ManageSpec(a, annotation, ccs, rules, parents, conv, ws, Some(m), b)
    requires NoDuplicates(Ids(rules)) && AgreesAt(annotation, ccs, r, p)
    ensures AgreesAt(m.work.annotation, AfterReconcile(ccs, m).0, r, p)
  {
    RunData(Context(m.merged, parents, conv), rules, ws);
    AgreesAfterwards(annotation, ccs, m, r, p);
  }

  lemma AgreesAfterwards(annotation: AppliedRules, ccs: ClusterConfigs, m: Managed, r: RuleId, p: string)
    requires MergedTo(annotation, ccs, m.merged) && CheckSpec(m.merged, ccs, m.instruction)
    requires AgreesAt(annotation, ccs, r, p)
    requires CreatesOk(m.work)
    requires forall q | q in m.merged :: q in m.work.annotation && m.work.annotation[q] == m.merged[q]
    ensures AgreesAt(m.work.annotation, AfterReconcile(ccs, m).0, r, p)
  {
    var repaired, after := Apply(ccs, m.instruction), AfterReconcile(ccs, m).0;
    CreateKeeps(repaired, m.work.creates);
    if r in repaired {
      RepairedAgrees(annotation, ccs, m.merged, m.instruction, r, p);
    } else if r in after {
      var i :| 0 <= i < |m.work.creates| && m.work.creates[i] == (r, after[r]);
      CreatedAgrees(m.work.annotation[r], after[r], p);
    }
  }

  lemma CreatedAgrees(recorded: Injections, cc: ClusterConfig, p: string)
    requires Generated(recorded, cc)
    ensures OneValue(recorded, cc.patches, p)
  {
    GeneratedIsAdded(recorded, cc);
    forall x | x in cc.patches && x.path == p
      ensures p in recorded && x == AddPatch(p, recorded[p])
    {
      PatchesAddedMembers([], recorded, cc.patches, x);
    }
    RecordedValue(recorded, cc.patches, p);
  }

  lemma RecordedValue(recorded: Injections, patches: seq<Patch>, p: string)
    requires forall x | x in patches && x.path == p :: p in recorded && x == AddPatch(p, recorded[p])
    ensures OneValue(recorded, patches, p)
  {
    var t := if p in recorded then recorded[p] else Junk("", -1);
    assert HasValue(recorded, patches, p, t);
  }

  lemma RepairedAgrees(annotation: AppliedRules, ccs: ClusterConfigs, merged: AppliedRules, ins: Instruction,
                       r: RuleId, p: string)
    requires MergedTo(annotation, ccs, merged) && CheckSpec(merged, ccs, ins) && r in Apply(ccs, ins)
    requires AgreesAt(annotation, ccs, r, p)
    ensures r in merged && OneValue(merged[r], Apply(ccs, ins)[r].patches, p)
  {
    forall x | x in Apply(ccs, ins)[r].patches && x.path == p
      ensures p in merged[r] && x == AddPatch(p, merged[r][p])
    {
      RepairAddsRecordedOnly(merged, ccs, ins, r, x);
      if r in ccs && x in ccs[r].patches {
        OldValueAgrees(annotation, ccs, merged, r, x);
      }
    }
    RecordedValue(merged[r], Apply(ccs, ins)[r].patches, p);
  }

  lemma OldValueAgrees(annotation: AppliedRules, ccs: ClusterConfigs, merged: AppliedRules, r: RuleId, x: Patch)
    requires MergedTo(annotation, ccs, merged) && AgreesAt(annotation, ccs, r, x.path)
    requires r in ccs && x in ccs[r].patches
    ensures x.path in merged[r] && x == AddPatch(x.path, merged[r][x.path])
  {
    var recorded := if r in annotation then annotation[r] else map[];
    var patches := ccs[r].patches;
    MergeKeepsRecorded(recorded, patches);
    var i :| 0 <= i < |patches| && patches[i] == x;
    assert HasPath(patches, x.path);
    var t :| HasValue(recorded, patches, x.path, t);
    if x.path !in recorded {
      var j :| 0 <= j < |patches| && patches[j].path == x.path && patches[j].value == Str(merged[r][x.path]);
      assert patches[j] in patches;
    }
  }
}
