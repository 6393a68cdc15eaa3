/** Which injection paths a reconcile keeps apart. */
module PathTheorems {
  import opened Prefixes
  import opened Forest
  import opened GoIpam
  import opened Config
  import opened Patches
  import opened Generation
  import opened GenerationTheorems
  import opened Repair
  import opened InjectionManagement
  import opened InjectionTheorems

  // ----- The paths of one rule -----

  lemma {:induction false} ConvertedMembers(conv: Conversion, paths: seq<string>, p: string)
    ensures p in Converted(conv, paths) <==> exists q :: q in paths && conv(q) == Some(p)
  {
    if paths != [] {
      var n := |paths| - 1;
      ConvertedMembers(conv, paths[..n], p);
      assert paths == paths[..n] + [paths[n]];
    }
  }

  lemma {:induction false} AllPathsMembers(injs: seq<Injection>, p: string)
    ensures p in AllPaths(injs) <==> exists i :: 0 <= i < |injs| && p in GetPaths(injs[i])
  {
    if injs != [] {
      var n := |injs| - 1;
      AllPathsMembers(injs[..n], p);
      assert forall i | 0 <= i < n :: injs[..n][i] == injs[i];
    }
  }

  lemma NormalizedPath(conv: Conversion, rule: Rule, p: string)
    requires AllConvertible(conv, AllPaths(rule.injections)) && p in AllPaths(NormRule(conv, rule).injections)
    ensures p in Converted(conv, AllPaths(rule.injections))
  {
    var injs, norm := rule.injections, NormRule(conv, rule).injections;
    AllPathsMembers(norm, p);
    var i :| 0 <= i < |norm| && p in GetPaths(norm[i]);
    var q := OriginalPath(conv, injs[i], p);
    AllPathsMembers(injs, q);
    assert q in AllPaths(injs);
    ConvertedMembers(conv, AllPaths(injs), p);
  }

  lemma OriginalPath(conv: Conversion, inj: Injection, p: string) returns (q: string)
    requires p in GetPaths(NormInjection(conv, inj))
    ensures q in GetPaths(inj) && p == NormPath(conv, q)
  {
    var norm := NormInjection(conv, inj);
    if p in norm.paths {
      var i :| 0 <= i < |norm.paths| && norm.paths[i] == p;
      q := inj.paths[i];
    } else {
      q := inj.path;
    }
  }

  /** The rule has not been applied to the cluster and passes the path check. */
  predicate Applicable(ctx: Context, rule: Rule) {
    rule.id !in ctx.applied && !HasIssue(ctx.conv, AllPaths(rule.injections), InjectedPaths(ctx.applied))
  }

  /** The paths the rule asks for, normalised where that is possible. */
  function RulePaths(conv: Conversion, rule: Rule): seq<string> {
    AllPaths(NormRule(conv, rule).injections)
  }

  ghost predicate PathsOf(injections: Injections, conv: Conversion, rule: Rule) {
    forall p :: p in injections <==> p in RulePaths(conv, rule)
  }

  /** A rule that is generated is recorded with exactly its paths, or has failed. */
  lemma GenerateOutcome(ctx: Context, w: Work, rule: Rule, w': Work)
    requires GenerateStep(ctx, w, rule, w') && rule.id !in w.annotation
    ensures w'.issues == w.issues && (w.failed ==> w'.failed)
    ensures rule.id !in w'.annotation ==> w'.annotation == w.annotation && w'.failed
    ensures rule.id in w'.annotation ==>
      w'.annotation == w.annotation[rule.id := w'.annotation[rule.id]]
      && PathsOf(w'.annotation[rule.id], ctx.conv, rule)
    ensures !w'.failed ==> AllConvertible(ctx.conv, AllPaths(rule.injections))
  {
    var injs := NormRule(ctx.conv, rule).injections;
    var trace, r :| GenerateSpec(w.ipam, injs, ctx.parents, trace, r, w'.ipam) && Recorded(ctx, w, rule, r, w');
    if r.Some? {
      PathsOfTrace(ctx.conv, rule, trace);
    }
  }

  lemma PathsOfTrace(conv: Conversion, rule: Rule, trace: seq<Pick>)
    requires |trace| == |NormRule(conv, rule).injections|
    ensures PathsOf(AsInjections(RawAfter(NormRule(conv, rule).injections, trace)), conv, rule)
  {
    var injs := NormRule(conv, rule).injections;
    assert injs[..|trace|] == injs;
    forall p
      ensures p in RawAfter(injs, trace) <==> p in AllPaths(injs)
    {
      RawKeys(injs, trace, p);
    }
  }

  /** A rule that is applied, with paths that can be converted, uses no path that was in use
      before the run. */
  lemma NewRulePaths(ctx: Context, w: Work, rule: Rule, w': Work, p: string)
    requires GenerateStep(ctx, w, rule, w') && Applicable(ctx, rule) && rule.id !in w.annotation
    requires AllConvertible(ctx.conv, AllPaths(rule.injections))
    requires rule.id in w'.annotation && p in w'.annotation[rule.id]
    ensures p in Converted(ctx.conv, AllPaths(rule.injections)) && p !in InjectedPaths(ctx.applied)
  {
    GenerateOutcome(ctx, w, rule, w');
    NormalizedPath(ctx.conv, rule, p);
    NoIssueMeans(ctx.conv, AllPaths(rule.injections), InjectedPaths(ctx.applied), p);
  }

  lemma NoIssueMeans(conv: Conversion, paths: seq<string>, injected: set<string>, p: string)
    requires !HasIssue(conv, paths, injected) && p in Converted(conv, paths)
    ensures p !in injected
  {
  }

  // ----- All rules of a run -----

  ghost predicate NewPathsFresh(ctx: Context, w: Work) {
    forall r, p | r in w.annotation && r !in ctx.applied && p in w.annotation[r] :: p !in InjectedPaths(ctx.applied)
  }

  /** What was recorded anew are the applicable rules, each with exactly its paths. */
  ghost predicate NewlyRecorded(ctx: Context, rules: seq<Rule>, w: Work) {
    && w.issues <= (set r | r in Ids(rules))
    && ApplicableRecorded(ctx, rules, w)
    && OnlyApplicable(ctx, rules, w)
  }

  ghost predicate ApplicableRecorded(ctx: Context, rules: seq<Rule>, w: Work) {
    forall i | 0 <= i < |rules| && Applicable(ctx, rules[i]) ::
      && (rules[i].id in w.annotation ==> PathsOf(w.annotation[rules[i].id], ctx.conv, rules[i]))
      && (!w.failed ==> rules[i].id in w.annotation)
  }

  ghost predicate OnlyApplicable(ctx: Context, rules: seq<Rule>, w: Work) {
    forall r | r in w.annotation && r !in ctx.applied ::
      exists i :: 0 <= i < |rules| && Applicable(ctx, rules[i]) && rules[i].id == r
  }

  /** The paths of all rules about to be applied can be converted. */
  ghost predicate PathsConvertible(ctx: Context, rules: seq<Rule>) {
    forall i | 0 <= i < |rules| && Applicable(ctx, rules[i]) :: AllConvertible(ctx.conv, AllPaths(rules[i].injections))
  }

  lemma {:induction false} RunPaths(ctx: Context, rules: seq<Rule>, ws: seq<Work>)
    requires RulesRun(ctx, rules, ws) && Started(ctx, ws[0]) && NoDuplicates(Ids(rules))
    requires ws[|rules|].failed ==> PathsConvertible(ctx, rules)
    ensures NewPathsFresh(ctx, ws[|rules|]) && NewlyRecorded(ctx, rules, ws[|rules|])
  {
    if rules != [] {
      var n := |rules| - 1;
      LastStep(ctx, rules, ws);
      DistinctInit(rules);
      RuleData(ctx, ws[n], rules[n], ws[n + 1]);
      RunPaths(ctx, rules[..n], ws[..n + 1]);
      OneMoreRecorded(ctx, rules, ws[n], ws[n + 1]);
    }
  }

  lemma OneMoreRecorded(ctx: Context, rules: seq<Rule>, w: Work, w': Work)
    requires rules != [] && NewPathsFresh(ctx, w) && NewlyRecorded(ctx, rules[..|rules| - 1], w)
    requires rules[|rules| - 1].id !in Ids(rules[..|rules| - 1])
    requires RuleStep(ctx, w, rules[|rules| - 1], w') && (w'.failed ==> PathsConvertible(ctx, rules))
    ensures NewPathsFresh(ctx, w') && NewlyRecorded(ctx, rules, w')
  {
    var n := |rules| - 1;
    NotYetRecorded(ctx, rules[..n], w, rules[n].id);
    RuleRecorded(ctx, w, rules[n], w');
    DistinctInit(rules);
    IdsGrow(rules[..n], rules[n]);
    KeepsRecorded(ctx, rules[..n], w, rules[n], w');
    assert rules[..n] + [rules[n]] == rules;
  }

  lemma NotYetRecorded(ctx: Context, rules: seq<Rule>, w: Work, r: RuleId)
    requires OnlyApplicable(ctx, rules, w) && r !in Ids(rules)
    ensures r !in ctx.applied ==> r !in w.annotation
  {
    assert forall i | 0 <= i < |rules| :: Ids(rules)[i] == rules[i].id;
  }

  lemma KeepsRecorded(ctx: Context, init: seq<Rule>, w: Work, rule: Rule, w': Work)
    requires NewlyRecorded(ctx, init, w) && rule.id !in Ids(init) && RuleDone(ctx, w, rule, w')
    ensures NewlyRecorded(ctx, init + [rule], w')
  {
    IdsGrow(init, rule);
    KeepsApplicable(ctx, init, w, rule, w');
    KeepsOnly(ctx, init, w, rule, w');
  }

  lemma KeepsApplicable(ctx: Context, init: seq<Rule>, w: Work, rule: Rule, w': Work)
    requires ApplicableRecorded(ctx, init, w) && rule.id !in Ids(init) && RuleDone(ctx, w, rule, w')
    ensures ApplicableRecorded(ctx, init + [rule], w')
  {
    var rules := init + [rule];
    forall i | 0 <= i < |rules| && Applicable(ctx, rules[i])
      ensures rules[i].id in w'.annotation ==> PathsOf(w'.annotation[rules[i].id], ctx.conv, rules[i])
      ensures !w'.failed ==> rules[i].id in w'.annotation
    {
      if i < |init| {
        assert rules[i] == init[i] && Ids(init)[i] == init[i].id;
      }
    }
  }

  lemma KeepsOnly(ctx: Context, init: seq<Rule>, w: Work, rule: Rule, w': Work)
    requires OnlyApplicable(ctx, init, w) && RuleDone(ctx, w, rule, w')
    ensures OnlyApplicable(ctx, init + [rule], w')
  {
    var rules, n := init + [rule], |init|;
    forall r | r in w'.annotation && r !in ctx.applied
      ensures exists i :: 0 <= i < |rules| && Applicable(ctx, rules[i]) && rules[i].id == r
    {
      if r in w.annotation {
        var i :| 0 <= i < n && Applicable(ctx, init[i]) && init[i].id == r;
        assert rules[i] == init[i];
      } else {
        assert rules[n] == rule && rule.id == r;
      }
    }
  }

  /** One rule: recorded with exactly its paths if applicable and successful, otherwise nothing
      new. */
  ghost predicate RuleDone(ctx: Context, w: Work, rule: Rule, w': Work) {
    && (w.failed ==> w'.failed) && w'.issues <= w.issues + {rule.id}
    && if Applicable(ctx, rule) && rule.id in w'.annotation then
         w'.annotation == w.annotation[rule.id := w'.annotation[rule.id]]
         && PathsOf(w'.annotation[rule.id], ctx.conv, rule)
       else w'.annotation == w.annotation && (Applicable(ctx, rule) ==> w'.failed)
  }

  lemma RuleRecorded(ctx: Context, w: Work, rule: Rule, w': Work)
    requires RuleStep(ctx, w, rule, w') && rule.id !in w.issues
    requires (rule.id !in ctx.applied ==> rule.id !in w.annotation)
    requires w'.failed && Applicable(ctx, rule) ==> AllConvertible(ctx.conv, AllPaths(rule.injections))
    ensures RuleDone(ctx, w, rule, w')
    ensures NewPathsFresh(ctx, w) ==> NewPathsFresh(ctx, w')
  {
    if Applicable(ctx, rule) {
      GenerateOutcome(ctx, w, rule, w');
      if rule.id in w'.annotation {
        forall p | p in w'.annotation[rule.id]
          ensures p !in InjectedPaths(ctx.applied)
        {
          NewRulePaths(ctx, w, rule, w', p);
        }
      }
    }
  }

  /** No two rules record the same path. */
  ghost predicate PathsDisjoint(annotation: AppliedRules) {
    forall r, q, p | r in annotation && q in annotation && r != q && p in annotation[r] :: p !in annotation[q]
  }

  /** No two of the rules that are about to be applied ask for the same path. */
  ghost predicate NewRulesDisjoint(ctx: Context, rules: seq<Rule>) {
    forall i, j, p | 0 <= i < j < |rules| && Applicable(ctx, rules[i]) && Applicable(ctx, rules[j])
      && p in RulePaths(ctx.conv, rules[i]) :: p !in RulePaths(ctx.conv, rules[j])
  }

  /** Paths stay disjoint between rules if the applicable rules do not ask for a common path,
      also in runs in which some rule finds no room; in runs without an error, exactly then.
      The check against used paths looks at what was recorded before the run. */
  lemma PathsStayDisjoint(a: Allocator, annotation: AppliedRules, ccs: ClusterConfigs, rules: seq<Rule>,
                          parents: map<string, seq<Prefix>>, conv: Conversion, ws: seq<Work>, m: Managed, b: Allocator)
    requires ManageSpec(a, annotation, ccs, rules, parents, conv, ws, Some(m), b)
    requires NoDuplicates(Ids(rules)) && PathsDisjoint(m.merged)
    ensures var ctx := Context(m.merged, parents, conv);
      && (PathsConvertible(ctx, rules) && NewRulesDisjoint(ctx, rules) ==> PathsDisjoint(m.work.annotation))
      && (!m.work.failed ==> (PathsDisjoint(m.work.annotation) <==> NewRulesDisjoint(ctx, rules)))
  {
    var ctx := Context(m.merged, parents, conv);
    if PathsConvertible(ctx, rules) || !m.work.failed {
      RunPaths(ctx, rules, ws);
      RunData(ctx, rules, ws);
      RecordedPathsDisjoint(ctx, rules, m.work);
    }
  }

  lemma RecordedPathsDisjoint(ctx: Context, rules: seq<Rule>, w: Work)
    requires NewPathsFresh(ctx, w) && NewlyRecorded(ctx, rules, w) && NoDuplicates(Ids(rules))
    requires PathsDisjoint(ctx.applied)
    requires forall r | r in ctx.applied :: r in w.annotation && w.annotation[r] == ctx.applied[r]
    ensures NewRulesDisjoint(ctx, rules) ==> PathsDisjoint(w.annotation)
    ensures !w.failed && PathsDisjoint(w.annotation) ==> NewRulesDisjoint(ctx, rules)
  {
    if !w.failed && PathsDisjoint(w.annotation) {
      forall i, j, p | 0 <= i < j < |rules| && Applicable(ctx, rules[i]) && Applicable(ctx, rules[j])
        && p in RulePaths(ctx.conv, rules[i])
        ensures p !in RulePaths(ctx.conv, rules[j])
      {
        assert Ids(rules)[i] != Ids(rules)[j];
        assert p in w.annotation[rules[i].id];
      }
    }
    if NewRulesDisjoint(ctx, rules) {
      forall r, q, p | r in w.annotation && q in w.annotation && r != q && p in w.annotation[r]
        ensures p !in w.annotation[q]
      {
        NewPathsApart(ctx, rules, w, r, q, p);
      }
    }
  }

  lemma NewPathsApart(ctx: Context, rules: seq<Rule>, w: Work, r: RuleId, q: RuleId, p: string)
    requires NewPathsFresh(ctx, w) && NewlyRecorded(ctx, rules, w) && NewRulesDisjoint(ctx, rules)
    requires PathsDisjoint(ctx.applied)
    requires forall r | r in ctx.applied :: r in w.annotation && w.annotation[r] == ctx.applied[r]
    requires r in w.annotation && q in w.annotation && r != q && p in w.annotation[r]
    ensures p !in w.annotation[q]
  {
    if r in ctx.applied && q in ctx.applied {
      assert w.annotation[r] == ctx.applied[r] && w.annotation[q] == ctx.applied[q];
    } else if r in ctx.applied || q in ctx.applied {
      assert r in ctx.applied ==> p in InjectedPaths(ctx.applied);
      assert q in ctx.applied && p in w.annotation[q] ==> p in InjectedPaths(ctx.applied);
    } else {
      var i := WhichRule(ctx, rules, w, r);
      var j := WhichRule(ctx, rules, w, q);
      assert p in RulePaths(ctx.conv, rules[i]);
    }
  }

  lemma WhichRule(ctx: Context, rules: seq<Rule>, w: Work, r: RuleId) returns (i: nat)
    requires NewlyRecorded(ctx, rules, w) && r in w.annotation && r !in ctx.applied
    ensures i < |rules| && Applicable(ctx, rules[i]) && rules[i].id == r && PathsOf(w.annotation[r], ctx.conv, rules[i])
  {
    i :| 0 <= i < |rules| && Applicable(ctx, rules[i]) && rules[i].id == r;
  }

  // ----- Two new rules with one path -----

  /** A block of this length at "/x". */
  function OnePathRule(id: RuleId, len: MaskLength): Rule {
    Rule(id, [Injection("", "/x", [], ["net"], len)])
  }

  function Same(path: string): Option<string> {
    Some(path)
  }

  function OneParent(p: Prefix): map<string, seq<Prefix>> {
    map["net" := [p]]
  }

  lemma GenerateOne(a: Allocator, p: Prefix, id: RuleId, block: Prefix)
    requires p in a && Fits(a, p, block)
    ensures GenerateSpec(a, OnePathRule(id, block.len).injections, OneParent(p), [Pick(["net"], p, block)],
                         Some(map["/x" := block]), a[block := Some(p)])
  {
    var injs, trace, parents := OnePathRule(id, block.len).injections, [Pick(["net"], p, block)], OneParent(p);
    var none: seq<Pick>, noLocals: map<string, Prefix> := [], map[];
    assert trace[..0] == none && StateAfter(a, none) == a;
    assert RegisteredOnly([p], a) == [p] by {
      assert [p][..0] == [] && RegisteredOnly([], a) == [];
    }
    var candidates := CandidatesFor(["net"], noLocals, parents, a);
    assert candidates == [p] by {
      assert ["net"][..0] == [] && CandidatesFor([], noLocals, parents, a) == [];
    }
    assert candidates[0] == p && NoneFits(a, candidates[..0], block.len);
    assert FirstFit(a, candidates, block.len, p, block);
    assert ValidPick(a, injs, parents, none, trace[0]);
    assert StateAfter(a, trace) == a[block := Some(p)];
    assert RawAfter(injs, trace) == map["/x" := block] by {
      assert RawAfter(injs, none) == map[];
      assert GetPaths(injs[0]) == ["/x"];
    }
  }

  lemma ApplyOne(ctx: Context, w: Work, p: Prefix, id: RuleId, block: Prefix) returns (w': Work)
    requires ctx == Context(map[], OneParent(p), Same) && w.issues == {}
    requires p in w.ipam && Fits(w.ipam, p, block)
    ensures RuleStep(ctx, w, OnePathRule(id, block.len), w')
    ensures w'.ipam == w.ipam[block := Some(p)] && w'.annotation == w.annotation[id := AsInjections(map["/x" := block])]
    ensures w'.issues == {} && w'.failed == w.failed
  {
    var raw: map<string, Prefix> := map["/x" := block];
    var cc := ConfigForOne(raw, "/x");
    w' := w.(ipam := w.ipam[block := Some(p)], annotation := w.annotation[id := AsInjections(raw)],
             creates := w.creates + [(id, cc)]);
    OnePathRuleFacts(id, block.len);
    GenerateOne(w.ipam, p, id, block);
    RecordingOne(ctx, w, OnePathRule(id, block.len), raw, cc, w');
    StepByGeneration(ctx, w, OnePathRule(id, block.len), [Pick(["net"], p, block)], Some(raw), w');
  }

  lemma ConfigForOne(raw: map<string, Prefix>, path: string) returns (cc: ClusterConfig)
    requires raw.Keys == {path}
    ensures Generated(AsInjections(raw), cc)
  {
    var order, inj := [path], AsInjections(raw);
    assert Enumerates(order, inj.Keys);
    cc := ClusterConfig(SortPatches(Listing(order, inj)), true, false, false);
  }

  lemma RecordingOne(ctx: Context, w: Work, rule: Rule, raw: map<string, Prefix>, cc: ClusterConfig, w': Work)
    requires Generated(AsInjections(raw), cc) && AllConvertible(ctx.conv, AllPaths(rule.injections))
    requires w' == w.(ipam := w'.ipam, annotation := w.annotation[rule.id := AsInjections(raw)],
                      creates := w.creates + [(rule.id, cc)])
    ensures Recorded(ctx, w, rule, Some(raw), w')
  {
  }

  lemma StepByGeneration(ctx: Context, w: Work, rule: Rule, trace: seq<Pick>, r: Option<map<string, Prefix>>, w': Work)
    requires rule.id !in ctx.applied && rule.id !in w.issues
    requires !HasIssue(ctx.conv, AllPaths(rule.injections), InjectedPaths(ctx.applied))
    requires NormRule(ctx.conv, rule) == rule
    requires GenerateSpec(w.ipam, rule.injections, ctx.parents, trace, r, w'.ipam) && Recorded(ctx, w, rule, r, w')
    ensures RuleStep(ctx, w, rule, w')
  {
  }

  lemma OnePathRuleFacts(id: RuleId, len: MaskLength)
    ensures NormRule(Same, OnePathRule(id, len)) == OnePathRule(id, len)
    ensures AllConvertible(Same, AllPaths(OnePathRule(id, len).injections))
    ensures !HasIssue(Same, AllPaths(OnePathRule(id, len).injections), InjectedPaths(map[]))
  {
    var injs, none: seq<string> := OnePathRule(id, len).injections, [];
    var paths := ["/x"];
    assert injs[..0] == [] && AllPaths(injs) == paths;
    assert paths[..0] == none && Converted(Same, none) == none;
    assert Converted(Same, paths) == paths;
    assert NormPaths(Same, none) == none && NormInjection(Same, injs[0]) == injs[0];
    assert NormRule(Same, OnePathRule(id, len)).injections == injs;
  }

  /** Two rules new to a cluster that name the same path are both applied, without an error
      or an issue: a /31 parent, and "/x" asked for by rules "a" and "b". */
  lemma TwoNewRulesShareAPath(p: Prefix) returns (ws: seq<Work>, m: Managed)
    requires p.len == 31
    ensures ManageSpec(map[p := None], map[], map[], [OnePathRule("a", 32), OnePathRule("b", 32)], OneParent(p), Same,
                       ws,
                       Some(m), m.work.ipam)
    ensures !m.work.failed && m.work.issues == {}
    ensures !PathsDisjoint(m.work.annotation)
  {
    var w0 := Work(map[p := None], map[], [], {}, {}, false);
    var w1, w2 := ApplyTwo(p, w0);
    ws := [w0, w1, w2];
    m := Managed(Instruction(map[], map[]), map[], w2);
    NothingToRepair();
  }

  lemma NothingToRepair()
    ensures Mergeable(map[], map[]) && MergedTo(map[], map[], map[])
    ensures CheckSpec(map[], map[], Instruction(map[], map[]))
  {
  }

  lemma ApplyTwo(p: Prefix, w0: Work) returns (w1: Work, w2: Work)
    requires p.len == 31 && w0 == Work(map[p := None], map[], [], {}, {}, false)
    ensures RulesRun(Context(map[], OneParent(p), Same), [OnePathRule("a", 32), OnePathRule("b", 32)], [w0, w1, w2])
    ensures !w2.failed && w2.issues == {} && !PathsDisjoint(w2.annotation)
  {
    var ctx := Context(map[], OneParent(p), Same);
    var (lo, hi) := Halves(p);
    HalvesFit(p);
    w1 := ApplyOne(ctx, w0, p, "a", lo);
    w2 := ApplyOne(ctx, w1, p, "b", hi);
    RunOfTwo(ctx, OnePathRule("a", 32), OnePathRule("b", 32), w0, w1, w2);
    assert "/x" in w2.annotation["a"] && "/x" in w2.annotation["b"];
  }

  lemma HalvesFit(p: Prefix)
    requires p.len == 31
    ensures Fits(map[p := None], p, Halves(p).0)
    ensures Fits((map[p := None])[Halves(p).0 := Some(p)], p, Halves(p).1)
  {
    var (lo, hi) := Halves(p);
    assert Pow2(1) == 2 && Pow2(0) == 1;
  }

  lemma RunOfTwo(ctx: Context, r1: Rule, r2: Rule, w0: Work, w1: Work, w2: Work)
    requires RuleStep(ctx, w0, r1, w1) && RuleStep(ctx, w1, r2, w2)
    ensures RulesRun(ctx, [r1, r2], [w0, w1, w2])
  {
    var rules, ws, none: seq<Rule> := [r1, r2], [w0, w1, w2], [];
    assert rules[..1] == [r1] && ws[..2] == [w0, w1];
    assert [r1][..0] == none && [w0, w1][..1] == [w0];
    assert RulesRun(ctx, none, [w0]);
    assert RulesRun(ctx, [r1], [w0, w1]);
  }
}
