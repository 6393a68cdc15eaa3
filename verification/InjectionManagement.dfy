/** Reconciling one cluster: merging the annotation with the existing ClusterConfigs,
    repairing what is missing, and applying the rules not applied before. */
module InjectionManagement {
  import opened Prefixes
  import opened Forest
  import opened GoIpam
  import opened Config
  import opened Patches
  import opened Generation
  import opened Repair

  // ----- Merging -----

  /** Adds the patch's value unless its path is recorded already; None if the value of a path
      not yet recorded is no string. */
  function MergePatch(m: Option<Injections>, patch: Patch): Option<Injections> {
    match m
    case None => None
    case Some(inj) =>
      if patch.path in inj then m
      else if patch.value.Str? then Some(inj[patch.path := patch.value.text])
      else None
  }

  function MergePatches(recorded: Injections, patches: seq<Patch>): Option<Injections> {
    if patches == [] then Some(recorded)
    else MergePatch(MergePatches(recorded, patches[..|patches| - 1]), patches[|patches| - 1])
  }

  function MergeRule(applied: AppliedRules, ccs: ClusterConfigs, r: RuleId): Option<Injections> {
    MergePatches(if r in applied then applied[r] else map[], if r in ccs then ccs[r].patches else [])
  }

  ghost predicate Mergeable(applied: AppliedRules, ccs: ClusterConfigs) {
    forall r | r in ccs :: MergeRule(applied, ccs, r).Some?
  }

  /** The annotation completed from the ClusterConfigs. */
  ghost predicate MergedTo(applied: AppliedRules, ccs: ClusterConfigs, merged: AppliedRules) {
    && (forall r :: r in merged <==> r in applied || r in ccs)
    && (forall r | r in merged :: MergeRule(applied, ccs, r) == Some(merged[r]))
  }

  method MergeClusterConfig(recorded: Injections, cc: ClusterConfig) returns (ok: bool, injections: Injections)
    ensures ok == MergePatches(recorded, cc.patches).Some?
    ensures ok ==> MergePatches(recorded, cc.patches) == Some(injections)
  {
    ok, injections := true, recorded;
    for i := 0 to |cc.patches|
      invariant ok == MergePatches(recorded, cc.patches[..i]).Some?
      invariant ok ==> MergePatches(recorded, cc.patches[..i]) == Some(injections)
    {
      assert cc.patches[..i + 1][..i] == cc.patches[..i];
      var patch := cc.patches[i];
      if patch.path !in injections {
        if patch.value.Str? {
          injections := injections[patch.path := patch.value.text];
        } else {
          ok := false;
        }
      }
    }
    assert cc.patches[..|cc.patches|] == cc.patches;
  }

  method MergeClusterConfigs(applied: AppliedRules, ccs: ClusterConfigs) returns (ok: bool, merged: AppliedRules)
    ensures ok <==> Mergeable(applied, ccs)
    ensures ok ==> MergedTo(applied, ccs, merged)
  {
    ok, merged := true, applied;
    var todo := ccs.Keys;
    while todo != {}
      invariant todo <= ccs.Keys
      invariant ok <==> forall r | r in ccs && r !in todo :: MergeRule(applied, ccs, r).Some?
      invariant forall r :: r in merged <==> r in applied || (r in ccs && r !in todo)
      invariant ok ==> forall r | r in merged ::
        if r in todo then merged[r] == applied[r] else MergeRule(applied, ccs, r) == Some(merged[r])
      decreases |todo|
    {
      var r :| r in todo;
      var recorded: Injections := if r in applied then applied[r] else map[];
      var more, injections := MergeClusterConfig(recorded, ccs[r]);
      todo := todo - {r};
      ok := ok && more;
      merged := merged[r := injections];
    }
  }

  // ----- Paths -----

  /** Path normalisation; None if the notation is not understood. */
  type Conversion = string -> Option<string>

  function NormPath(conv: Conversion, path: string): string {
    match conv(path)
    case None => path
    case Some(p) => p
  }

  function NormPaths(conv: Conversion, paths: seq<string>): (r: seq<string>)
    ensures |r| == |paths| && forall i | 0 <= i < |r| :: r[i] == NormPath(conv, paths[i])
  {
    seq(|paths|, i requires 0 <= i < |paths| => NormPath(conv, paths[i]))
  }

  function NormInjection(conv: Conversion, inj: Injection): Injection {
    inj.(path := if inj.path != "" then NormPath(conv, inj.path) else "", paths := NormPaths(conv, inj.paths))
  }

  function NormRule(conv: Conversion, rule: Rule): Rule {
    rule.(injections := seq(|rule.injections|,
                            i requires 0 <= i < |rule.injections| => NormInjection(conv, rule.injections[i])))
  }

  function InjectedPaths(applied: AppliedRules): set<string> {
    set r, p | r in applied && p in applied[r] :: p
  }

  /** The convertible ones among the paths, converted. */
  function Converted(conv: Conversion, paths: seq<string>): seq<string> {
    if paths == [] then []
    else
      var n := |paths| - 1;
      Converted(conv, paths[..n]) + (match conv(paths[n]) case None => [] case Some(p) => [p])
  }

  predicate AllConvertible(conv: Conversion, paths: seq<string>) {
    forall p | p in paths :: conv(p).Some?
  }

  /** The rule names a path twice, or one that an earlier rule injects into. */
  predicate HasIssue(conv: Conversion, paths: seq<string>, injected: set<string>) {
    !NoDuplicates(Converted(conv, paths)) || exists p | p in Converted(conv, paths) :: p in injected
  }

  // ----- Applying the rules -----

  function AsInjections(raw: map<string, Prefix>): Injections {
    map p | p in raw :: Block(raw[p])
  }

  /** The state of the loop over the rules: the shared allocator, the annotation to apply, the
      ClusterConfigs to create, rules with issues, rules skipped, and whether an error was
      recorded. */
  datatype Work = Work(
    ipam: Allocator, annotation: AppliedRules, creates: seq<(RuleId, ClusterConfig)>,
    issues: set<RuleId>, skipped: set<RuleId>, failed: bool)

  /** What the loop leaves unchanged. */
  datatype Context = Context(applied: AppliedRules, parents: map<string, seq<Prefix>>, conv: Conversion)

  ghost predicate SkipStep(w: Work, rule: Rule, w': Work) {
    w' == w.(skipped := w.skipped + {rule.id})
  }

  ghost predicate IssueStep(ctx: Context, w: Work, rule: Rule, w': Work) {
    && w' == w.(issues := w.issues + {rule.id}, failed := w'.failed)
    && (w.failed ==> w'.failed)
    && (w'.failed ==> w.failed || !AllConvertible(ctx.conv, AllPaths(rule.injections)))
  }

  ghost predicate GenerateStep(ctx: Context, w: Work, rule: Rule, w': Work) {
    exists trace, r :: GenerateSpec(w.ipam, NormRule(ctx.conv, rule).injections, ctx.parents, trace, r, w'.ipam)
      && Recorded(ctx, w, rule, r, w')
  }

  ghost predicate Recorded(ctx: Context, w: Work, rule: Rule, r: Option<map<string, Prefix>>, w': Work) {
    match r
    case None => w' == w.(ipam := w'.ipam, failed := true)
    case Some(raw) =>
      exists cc :: Generated(AsInjections(raw), cc)
        && w' == w.(ipam := w'.ipam, annotation := w.annotation[rule.id := AsInjections(raw)],
                    creates := w.creates + [(rule.id, cc)],
                    failed := w.failed || !AllConvertible(ctx.conv, AllPaths(rule.injections)))
  }

  ghost predicate RuleStep(ctx: Context, w: Work, rule: Rule, w': Work) {
    if rule.id in ctx.applied then SkipStep(w, rule, w')
    else if rule.id in w.issues || HasIssue(ctx.conv, AllPaths(rule.injections), InjectedPaths(ctx.applied)) then
      IssueStep(ctx, w, rule, w')
    else GenerateStep(ctx, w, rule, w')
  }

  /** ws lists the states before, between and after the rules. */
  ghost predicate RulesRun(ctx: Context, rules: seq<Rule>, ws: seq<Work>) {
    var n := |rules|;
    |ws| == n + 1 && (n > 0 ==> RulesRun(ctx, rules[..n - 1], ws[..n]) && RuleStep(ctx, ws[n - 1], rules[n - 1], ws[n]))
  }

  /** Creating the new ClusterConfigs one by one; a name that is taken is an error. */
  function CreateAll(ccs: ClusterConfigs, creates: seq<(RuleId, ClusterConfig)>): (ClusterConfigs, bool) {
    if creates == [] then (ccs, true)
    else
      var n := |creates| - 1;
      var (before, ok) := CreateAll(ccs, creates[..n]);
      if creates[n].0 in before then (before, false) else (before[creates[n].0 := creates[n].1], ok)
  }

  // ----- The code -----

  method CheckRulePaths(conv: Conversion, rule: Rule, injected: set<string>) returns (issue: bool, bad: bool)
    ensures issue <==> HasIssue(conv, AllPaths(rule.injections), injected)
    ensures bad ==> !AllConvertible(conv, AllPaths(rule.injections))
    ensures !issue ==> (bad <==> !AllConvertible(conv, AllPaths(rule.injections)))
  {
    issue, bad := false, false;
    var seen: set<string> := {};
    ghost var done: seq<string> := [];
    for i := 0 to |rule.injections|
      invariant done == AllPaths(rule.injections[..i])
      invariant issue <==> HasIssue(conv, done, injected)
      invariant bad ==> !AllConvertible(conv, done)
      invariant !issue ==> (bad <==> !AllConvertible(conv, done))
      invariant !issue ==> forall p :: p in seen <==> p in Converted(conv, done)
    {
      assert rule.injections[..i + 1][..i] == rule.injections[..i];
      var paths := GetPaths(rule.injections[i]);
      var more, moreBad;
      more, moreBad, seen := CheckPathList(conv, paths, injected, seen, done);
      if !issue {
        bad := bad || moreBad;
        issue := more;
      } else {
        IssueStays(conv, done, paths, injected);
        bad := bad || moreBad;
      }
      done := done + paths;
    }
    assert rule.injections[..|rule.injections|] == rule.injections;
  }

  lemma {:induction false} IssueStays(conv: Conversion, s: seq<string>, t: seq<string>, injected: set<string>)
    requires HasIssue(conv, s, injected)
    ensures HasIssue(conv, s + t, injected)
  {
    if t == [] {
      assert s + t == s;
    } else {
      var n := |t| - 1;
      IssueStays(conv, s, t[..n], injected);
      assert (s + t)[..|s + t| - 1] == s + t[..n];
      IssueStaysOne(conv, s + t[..n], t[n], injected);
      assert s + t == s + t[..n] + [t[n]];
    }
  }

  lemma IssueStaysOne(conv: Conversion, s: seq<string>, p: string, injected: set<string>)
    requires HasIssue(conv, s, injected)
    ensures HasIssue(conv, s + [p], injected)
  {
    assert (s + [p])[..|s|] == s;
    var c := Converted(conv, s);
    if !NoDuplicates(c) {
      var i, j :| 0 <= i < j < |c| && c[i] == c[j];
      assert Converted(conv, s + [p])[i] == Converted(conv, s + [p])[j];
    }
  }

  lemma OnePath(conv: Conversion, s: seq<string>, p: string, injected: set<string>)
    requires !HasIssue(conv, s, injected)
    ensures HasIssue(conv, s + [p], injected)
      <==> conv(p).Some? && (conv(p).value in Converted(conv, s) || conv(p).value in injected)
    ensures forall q :: q in Converted(conv, s + [p]) <==> q in Converted(conv, s) || conv(p) == Some(q)
    ensures AllConvertible(conv, s + [p]) <==> AllConvertible(conv, s) && conv(p).Some?
  {
    assert (s + [p])[..|s|] == s;
    var c := Converted(conv, s);
    if conv(p).Some? {
      var d := Converted(conv, s + [p]);
      assert d == c + [conv(p).value];
      assert forall i | 0 <= i < |c| :: d[i] == c[i];
      assert d[|c|] == conv(p).value;
      if conv(p).value in c {
        var i :| 0 <= i < |c| && c[i] == conv(p).value;
        assert d[i] == d[|c|];
      }
      if conv(p).value in injected {
        assert conv(p).value in d;
      }
    }
  }

  method CheckPathList(conv: Conversion, paths: seq<string>, injected: set<string>, seen: set<string>,
                       ghost before: seq<string>)
      returns (issue: bool, bad: bool, seen': set<string>)
    ensures !HasIssue(conv, before, injected) && (forall p :: p in seen <==> p in Converted(conv, before)) ==>
      && (issue <==> HasIssue(conv, before + paths, injected))
      && (!issue ==> (AllConvertible(conv, before + paths) <==> AllConvertible(conv, before) && !bad))
      && (!issue ==> forall p :: p in seen' <==> p in Converted(conv, before + paths))
    ensures bad ==> !AllConvertible(conv, before + paths)
  {
    issue, bad, seen' := false, false, seen;
    ghost var done := before;
    ghost var started := !HasIssue(conv, before, injected) && (forall p :: p in seen <==> p in Converted(conv, before));
    for i := 0 to |paths|
      invariant done == before + paths[..i] && !issue
      invariant started ==> !HasIssue(conv, done, injected) && (forall p :: p in seen' <==> p in Converted(conv, done))
      invariant started ==> (AllConvertible(conv, done) <==> AllConvertible(conv, before) && !bad)
      invariant bad ==> !AllConvertible(conv, done)
    {
      if started {
        OnePath(conv, done, paths[i], injected);
      }
      assert before + paths == done + [paths[i]] + paths[i + 1..];
      done := done + [paths[i]];
      match conv(paths[i]) {
        case None =>
          bad := true;
        case Some(path) =>
          if path in seen' {
            issue := true;
          } else {
            seen' := seen' + {path};
            if path in injected {
              issue := true;
            }
          }
      }
      if issue {
        if started {
          IssueStays(conv, done, paths[i + 1..], injected);
        }
        assert done + paths[i + 1..] == before + paths;
        return;
      }
    }
    assert paths[..|paths|] == paths;
  }

  method ApplyRule(ipam: Library, ctx: Context, w: Work, injected: set<string>, rule: Rule) returns (w': Work)
    requires w.ipam == ipam.prefixes && injected == InjectedPaths(ctx.applied)
    modifies ipam
    ensures w'.ipam == ipam.prefixes && RuleStep(ctx, w, rule, w')
  {
    if rule.id in ctx.applied {
      return w.(skipped := w.skipped + {rule.id});
    }
    var issue, bad := CheckRulePaths(ctx.conv, rule, injected);
    if issue || rule.id in w.issues {
      return w.(issues := w.issues + {rule.id}, failed := w.failed || bad);
    }
    var raw, trace := GenerateCIDRsForInjectionRule(ipam, NormRule(ctx.conv, rule), ctx.parents);
    match raw {
      case None =>
        w' := w.(ipam := ipam.prefixes, failed := true);
        assert Recorded(ctx, w, rule, raw, w');
      case Some(m) =>
        var cc := GenerateClusterConfig(AsInjections(m));
        w' := w.(ipam := ipam.prefixes, annotation := w.annotation[rule.id := AsInjections(m)],
                 creates := w.creates + [(rule.id, cc)], failed := w.failed || bad);
        assert Recorded(ctx, w, rule, raw, w');
    }
  }

  /** The result is absent if a ClusterConfig cannot be read. */
  datatype Managed = Managed(instruction: Instruction, merged: AppliedRules, work: Work)

  ghost predicate ManageSpec(a: Allocator, annotation: AppliedRules, ccs: ClusterConfigs, rules: seq<Rule>,
                             parents: map<string, seq<Prefix>>, conv: Conversion, ws: seq<Work>, res: Option<Managed>,
                             b: Allocator) {
    match res
    case None => !Mergeable(annotation, ccs) && b == a
    case Some(m) =>
      && Mergeable(annotation, ccs) && MergedTo(annotation, ccs, m.merged)
      && CheckSpec(m.merged, ccs, m.instruction)
      && RulesRun(Context(m.merged, parents, conv), rules, ws)
      && ws[0] == Work(a, m.merged, [], {}, {}, false)
      && ws[|rules|] == m.work && m.work.ipam == b
  }

  method ManageInjections(ipam: Library, annotation: AppliedRules, ccs: ClusterConfigs, rules: seq<Rule>,
                          parents: map<string, seq<Prefix>>, conv: Conversion)
      returns (res: Option<Managed>, ghost ws: seq<Work>)
    modifies ipam
    ensures ManageSpec(old(ipam.prefixes), annotation, ccs, rules, parents, conv, ws, res, ipam.prefixes)
  {
    var ok, merged := MergeClusterConfigs(annotation, ccs);
    if !ok {
      return None, [];
    }
    var ins := CheckClusterConfigsForCluster(merged, ccs);
    var w;
    w, ws := ApplyRules(ipam, Context(merged, parents, conv), rules, Work(ipam.prefixes, merged, [], {}, {}, false));
    res := Some(Managed(ins, merged, w));
  }

  method ApplyRules(ipam: Library, ctx: Context, rules: seq<Rule>, start: Work) returns (w: Work, ghost ws: seq<Work>)
    requires start.ipam == ipam.prefixes
    modifies ipam
    ensures RulesRun(ctx, rules, ws) && ws[0] == start && ws[|rules|] == w && w.ipam == ipam.prefixes
  {
    var injected := InjectedPaths(ctx.applied);
    w := start;
    ws := [w];
    for i := 0 to |rules|
      invariant w.ipam == ipam.prefixes
      invariant RulesRun(ctx, rules[..i], ws) && ws[0] == start && ws[i] == w
    {
      ghost var before := ws;
      w := ApplyRule(ipam, ctx, w, injected, rules[i]);
      ws := ws + [w];
      assert rules[..i + 1][..i] == rules[..i] && ws[..i + 1] == before;
    }
    assert rules[..|rules|] == rules;
  }
}
