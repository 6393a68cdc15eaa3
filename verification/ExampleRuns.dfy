/** Concrete runs.  In some of them one step is not safe, and a block ends up with two owners;
    in the others every step is safe, and a rebuild or a new parent does not do what the
    documentation leads one to expect. */
module ExampleRuns {
  import opened Prefixes
  import opened Forest
  import opened GoIpam
  import opened Config
  import opened Chains
  import opened Patches
  import SortTheorems
  import opened Generation
  import opened GenerationTheorems
  import opened Repair
  import opened Release
  import opened Rebuild
  import opened RebuildTheorems
  import opened InjectionManagement
  import opened InjectionTheorems
  import opened PathTheorems
  import opened System
  import SystemTheorems

  // ----- Building runs step by step -----

  type Relation = (State, Step, State) -> bool

  /** The runs are built for any relation that has all safe steps, which keeps the proofs from
      looking into the steps. */
  ghost predicate HasSafeSteps(next: Relation) {
    forall s, step, s' {:trigger Next(Same, s, step, s')} | Next(Same, s, step, s') && SafeStep(s, step) ::
      next(s, step, s')
  }

  lemma SafeHasSafeSteps()
    ensures HasSafeSteps(SafeNextOf(Same))
  {
  }

  lemma Extend(next: Relation, states: seq<State>, steps: seq<Step>, step: Step, s: State)
      returns (states': seq<State>, steps': seq<Step>)
    requires Chain(next, states, steps) && next(states[|steps|], step, s)
    ensures Chain(next, states', steps') && states'[0] == states[0] && states'[|steps'|] == s
  {
    states', steps' := states + [s], steps + [step];
    ChainOneMore(next, states, steps, step, s);
  }

  lemma Creates(next: Relation, s: State, cl: string)
    requires HasSafeSteps(next) && cl !in s.clusters && AllHeld(ConfigsOf(s, cl))
    ensures next(s, CreateCluster(cl), s.(clusters := s.clusters[cl := map[]]))
  {
    var step, s' := CreateCluster(cl), s.(clusters := s.clusters[cl := map[]]);
    assert Next(Same, s, step, s') && SafeStep(s, step);
  }

  lemma Deletes(next: Relation, s: State, cl: string)
    requires HasSafeSteps(next) && cl in s.clusters
    ensures next(s, DeleteCluster(cl), s.(clusters := s.clusters - {cl}))
  {
    var step, s' := DeleteCluster(cl), s.(clusters := s.clusters - {cl});
    assert Next(Same, s, step, s') && SafeStep(s, step);
  }

  lemma Reconciles(next: Relation, s: State, cl: string, rules: seq<Rule>, s': State)
    requires HasSafeSteps(next) && ReconcileStep(s, cl, rules, Same, s')
    ensures next(s, Reconcile(cl, rules), s')
  {
    var step := Reconcile(cl, rules);
    assert Next(Same, s, step, s') && SafeStep(s, step);
  }

  lemma SetsForeign(next: Relation, s: State, o: Owner, s': State)
    requires HasSafeSteps(next) && SetForeignStep(s, o, s')
    ensures next(s, SetForeign(o), s')
  {
    var step := SetForeign(o);
    assert Next(Same, s, step, s') && SafeStep(s, step);
  }

  lemma LosesConfig(next: Relation, s: State, o: Owner, s': State)
    requires HasSafeSteps(next) && LoseConfigStep(s, o, s')
    ensures next(s, LoseConfig(o), s')
  {
    var step := LoseConfig(o);
    assert Next(Same, s, step, s') && SafeStep(s, step);
  }

  lemma Releases(next: Relation, s: State, o: Owner, s': State)
    requires HasSafeSteps(next) && ReleaseStep(s, o, true, s') && ConfigOf(s, o).finalizer
    ensures next(s, ReleaseConfig(o, true), s')
  {
    var step := ReleaseConfig(o, true);
    assert Next(Same, s, step, s') && SafeStep(s, step);
  }

  /** A first state, with one parent or none, and nothing recorded. */
  function First(parents: map<string, seq<Prefix>>, a: Allocator): State {
    State(parents, a, map[], map[])
  }

  lemma OneParentRebuilt(p: Prefix)
    ensures Flatten(["net"], OneParent(p)) == [p] && RebuildFrom([p], []) == Some(map[p := None])
  {
    assert ["net"][..0] == [] && Flatten([], OneParent(p)) == [];
    assert [p][..0] == [];
    assert RegisterFrom(map[], []) == Some(map[]);
    assert NewRoot(map[], p) == Some(map[p := None]);
  }

  /** With no ClusterConfig to take in, a rebuild registers the parent. */
  lemma RebuildsToParent(s: State, p: Prefix, relevant: set<string>)
    requires s.parents == OneParent(p) && Handled(s.ccs, relevant) == map[] && relevant <= s.clusters.Keys
    ensures RebuildsTo(s, relevant, Some(map[p := None]))
  {
    OneParentRebuilt(p);
    var ids, keys: seq<Owner> := ["net"], [];
    assert Enumerates(ids, s.parents.Keys) && Enumerates(keys, Handled(s.ccs, relevant).Keys);
    assert ListsIn(keys, Handled(s.ccs, relevant)) == [];
  }

  /** A chain from the first state with this parent. */
  ghost predicate FromFirst(next: Relation, p: Prefix, states: seq<State>, steps: seq<Step>) {
    Chain(next, states, steps) && states[0] == First(OneParent(p), map[p := None])
  }

  lemma FromFirstIsRun(p: Prefix, states: seq<State>, steps: seq<Step>)
    requires FromFirst(SafeNextOf(Same), p, states, steps)
    ensures SafeRun(Same, states, steps)
  {
    StartsWell(p);
  }

  lemma StartsWell(p: Prefix)
    ensures Init(First(OneParent(p), map[p := None]))
  {
    var s := First(OneParent(p), map[p := None]);
    RebuildsToParent(s, p, {});
    OneParentOk(p);
  }

  lemma OneParentOk(p: Prefix)
    ensures ParentsOk(OneParent(p))
  {
  }

  /** The first reconcile of a cluster, under a rule that gets its blocks. */
  function AfterFirst(s: State, cl: string, rule: Rule, raw: map<string, Prefix>, b: Allocator,
                      cc: ClusterConfig): State {
    State(s.parents, b, s.clusters[cl := map[rule.id := AsInjections(raw)]], s.ccs[cl := map[rule.id := cc]])
  }

  predicate PathsFree(rule: Rule) {
    && NormRule(Same, rule) == rule && AllConvertible(Same, AllPaths(rule.injections))
    && !HasIssue(Same, AllPaths(rule.injections), InjectedPaths(map[]))
  }

  lemma FirstReconcile(s: State, cl: string, rule: Rule, trace: seq<Pick>, raw: map<string, Prefix>, b: Allocator,
                       cc: ClusterConfig)
    requires cl in s.clusters && s.clusters[cl] == map[] && ConfigsOf(s, cl) == map[] && PathsFree(rule)
    requires GenerateSpec(s.ipam, rule.injections, s.parents, trace, Some(raw), b) && Generated(AsInjections(raw), cc)
    ensures ReconcileStep(s, cl, [rule], Same, AfterFirst(s, cl, rule, raw, b, cc))
  {
    var w0 := Work(s.ipam, map[], [], {}, {}, false);
    var w1 := Work(b, map[rule.id := AsInjections(raw)], [(rule.id, cc)], {}, {}, false);
    FirstRuleStep(s.parents, rule, trace, raw, cc, w0, w1);
    FromRuleStep(s, cl, rule, raw, cc, w0, w1);
  }

  lemma FromRuleStep(s: State, cl: string, rule: Rule, raw: map<string, Prefix>, cc: ClusterConfig, w0: Work, w1: Work)
    requires cl in s.clusters && s.clusters[cl] == map[] && ConfigsOf(s, cl) == map[]
    requires w0 == Work(s.ipam, map[], [], {}, {}, false)
    requires w1 == Work(w1.ipam, map[rule.id := AsInjections(raw)], [(rule.id, cc)], {}, {}, false)
    requires RuleStep(Context(map[], s.parents, Same), w0, rule, w1)
    ensures ReconcileStep(s, cl, [rule], Same, AfterFirst(s, cl, rule, raw, w1.ipam, cc))
  {
    var m := Managed(Instruction(map[], map[]), map[], w1);
    FirstManaged(s.parents, s.clusters[cl], ConfigsOf(s, cl), rule, w0, w1);
    FirstDone(s, cl, rule, raw, cc, [w0, w1], m);
  }

  lemma FirstDone(s: State, cl: string, rule: Rule, raw: map<string, Prefix>, cc: ClusterConfig, ws: seq<Work>,
                  m: Managed)
    requires cl in s.clusters && ConfigsOf(s, cl) == map[] && m.instruction == Instruction(map[], map[])
    requires m.work.annotation == map[rule.id := AsInjections(raw)] && m.work.creates == [(rule.id, cc)]
    requires ManageSpec(s.ipam, s.clusters[cl], ConfigsOf(s, cl), [rule], s.parents, Same, ws, Some(m), m.work.ipam)
    ensures ReconcileStep(s, cl, [rule], Same, AfterFirst(s, cl, rule, raw, m.work.ipam, cc))
  {
    FirstApplied(m, rule.id, cc);
    assert Ids([rule]) == [rule.id];
    FromManaged(s, cl, [rule], ws, m, AfterFirst(s, cl, rule, raw, m.work.ipam, cc));
  }

  lemma FirstRuleStep(parents: map<string, seq<Prefix>>, rule: Rule, trace: seq<Pick>, raw: map<string, Prefix>,
                      cc: ClusterConfig, w0: Work, w1: Work)
    requires PathsFree(rule) && Generated(AsInjections(raw), cc)
    requires GenerateSpec(w0.ipam, rule.injections, parents, trace, Some(raw), w1.ipam)
    requires w0 == Work(w0.ipam, map[], [], {}, {}, false)
    requires w1 == Work(w1.ipam, map[rule.id := AsInjections(raw)], [(rule.id, cc)], {}, {}, false)
    ensures RuleStep(Context(map[], parents, Same), w0, rule, w1)
  {
    RecordingOne(Context(map[], parents, Same), w0, rule, raw, cc, w1);
    StepByGeneration(Context(map[], parents, Same), w0, rule, trace, Some(raw), w1);
  }

  lemma FirstManaged(parents: map<string, seq<Prefix>>, applied: AppliedRules, ccs: ClusterConfigs, rule: Rule,
                     w0: Work, w1: Work)
    requires applied == map[] && ccs == map[] && w0 == Work(w0.ipam, map[], [], {}, {}, false)
    requires RuleStep(Context(map[], parents, Same), w0, rule, w1)
    ensures ManageSpec(w0.ipam, applied, ccs, [rule], parents, Same, [w0, w1],
                       Some(Managed(Instruction(map[], map[]), map[], w1)), w1.ipam)
  {
    RunOfOne(Context(map[], parents, Same), rule, w0, w1);
    NothingToRepair();
  }

  lemma FromManaged(s: State, cl: string, rules: seq<Rule>, ws: seq<Work>, m: Managed, s': State)
    requires cl in s.clusters && NoDuplicates(Ids(rules))
    requires ManageSpec(s.ipam, s.clusters[cl], ConfigsOf(s, cl), rules, s.parents, Same, ws, Some(m), s'.ipam)
    requires s' == s.(ipam := s'.ipam, clusters := s.clusters[cl := m.work.annotation],
                      ccs := s.ccs[cl := AfterReconcile(ConfigsOf(s, cl), m).0])
    ensures ReconcileStep(s, cl, rules, Same, s')
  {
    assert ReconcileWith(s, cl, rules, Same, ws, Some(m), s');
  }

  lemma FirstApplied(m: Managed, r: RuleId, cc: ClusterConfig)
    requires m.instruction == Instruction(map[], map[]) && m.work.creates == [(r, cc)]
    ensures AfterReconcile(map[], m) == (map[r := cc], true)
  {
    OneCreated(r, cc);
    assert Apply(map[], m.instruction) == map[];
  }

  lemma RunOfOne(ctx: Context, rule: Rule, w0: Work, w1: Work)
    requires RuleStep(ctx, w0, rule, w1)
    ensures RulesRun(ctx, [rule], [w0, w1])
  {
    var none: seq<Rule> := [];
    assert [rule][..0] == none && [w0, w1][..1] == [w0];
    assert RulesRun(ctx, none, [w0]);
  }

  lemma OneCreated(r: RuleId, cc: ClusterConfig)
    ensures CreateAll(map[], [(r, cc)]) == (map[r := cc], true)
  {
    var none: seq<(RuleId, ClusterConfig)> := [];
    assert [(r, cc)][..0] == none && CreateAll(map[], none) == (map[], true);
  }

  // ----- One block, asked for by one cluster after the other -----

  const R: RuleId := "r"

  function OneRecord(block: Prefix): AppliedRules {
    map[R := map["/x" := Block(block)]]
  }

  function OneConfig(block: Prefix): ClusterConfig {
    ClusterConfig([AddPatch("/x", Block(block))], true, false, false)
  }

  lemma OneConfigGenerated(block: Prefix)
    ensures Generated(map["/x" := Block(block)], OneConfig(block))
  {
    var order, inj: Injections := ["/x"], map["/x" := Block(block)];
    assert Enumerates(order, inj.Keys);
    var list := Listing(order, inj);
    assert list == [AddPatch("/x", Block(block))];
    SortTheorems.ShortStaysSorted(list);
  }

  /** The cluster, new and reconciled for the first time, gets the block. */
  function Served(s: State, cl: string, p: Prefix, block: Prefix): State {
    State(s.parents, s.ipam[block := Some(p)], s.clusters[cl := OneRecord(block)],
          s.ccs[cl := map[R := OneConfig(block)]])
  }

  predicate CanServe(s: State, cl: string, p: Prefix, block: Prefix) {
    && cl !in s.clusters && ConfigsOf(s, cl) == map[] && s.parents == OneParent(p)
    && p in s.ipam && Fits(s.ipam, p, block)
  }

  lemma Serve(next: Relation, states: seq<State>, steps: seq<Step>, s: State, cl: string, p: Prefix, block: Prefix)
      returns (states': seq<State>, steps': seq<Step>)
    requires HasSafeSteps(next) && Chain(next, states, steps) && states[|steps|] == s && CanServe(s, cl, p, block)
    ensures Chain(next, states', steps') && states'[0] == states[0]
    ensures states'[|steps'|] == Served(s, cl, p, block)
  {
    var s1 := s.(clusters := s.clusters[cl := map[]]);
    Creates(next, s, cl);
    states', steps' := Extend(next, states, steps, CreateCluster(cl), s1);
    ReconcileOne(next, s1, cl, p, block);
    SameServed(s, cl, p, block);
    states', steps' := Extend(next, states', steps', Reconcile(cl, [OnePathRule(R, block.len)]),
                              Served(s, cl, p, block));
  }

  lemma SameServed(s: State, cl: string, p: Prefix, block: Prefix)
    ensures Served(s.(clusters := s.clusters[cl := map[]]), cl, p, block) == Served(s, cl, p, block)
  {
  }

  lemma ReconcileOne(next: Relation, s: State, cl: string, p: Prefix, block: Prefix)
    requires HasSafeSteps(next) && cl in s.clusters && s.clusters[cl] == map[] && ConfigsOf(s, cl) == map[]
    requires s.parents == OneParent(p)
    requires p in s.ipam && Fits(s.ipam, p, block)
    ensures next(s, Reconcile(cl, [OnePathRule(R, block.len)]), Served(s, cl, p, block))
  {
    OneReconciled(s, cl, p, block);
    Reconciles(next, s, cl, [OnePathRule(R, block.len)], Served(s, cl, p, block));
  }

  lemma OneReconciled(s: State, cl: string, p: Prefix, block: Prefix)
    requires cl in s.clusters && s.clusters[cl] == map[] && ConfigsOf(s, cl) == map[] && s.parents == OneParent(p)
    requires p in s.ipam && Fits(s.ipam, p, block)
    ensures ReconcileStep(s, cl, [OnePathRule(R, block.len)], Same, Served(s, cl, p, block))
  {
    var raw, b := map["/x" := block], s.ipam[block := Some(p)];
    OnePathRuleFacts(R, block.len);
    GenerateOne(s.ipam, p, R, block);
    OneConfigGenerated(block);
    assert AsInjections(raw) == map["/x" := Block(block)];
    FirstReconcile(s, cl, OnePathRule(R, block.len), [Pick(["net"], p, block)], raw, b, OneConfig(block));
  }

  /** A change of the only ClusterConfig of a cluster. */
  lemma OnlyConfigChanges(s: State, cl: string, cc: Option<ClusterConfig>)
    requires cl in s.ccs && s.ccs[cl].Keys == {R}
    ensures WithConfig(s, Owner(cl, R), cc) ==
      s.(ccs := s.ccs[cl := match cc case None => map[] case Some(v) => map[R := v]])
  {
    var now: ClusterConfigs := match cc case None => map[] case Some(v) => map[R := v];
    match cc
    case None => assert ConfigsOf(s, cl) - {R} == now;
    case Some(v) => assert ConfigsOf(s, cl)[R := v] == now;
  }

  // ----- A second release -----

  const A: string := "a"
  const B: string := "b"
  const C: string := "c"

  function Free(p: Prefix): Allocator {
    map[p := None]
  }

  function Taken(p: Prefix, block: Prefix): Allocator {
    map[p := None, block := Some(p)]
  }

  /** A released ClusterConfig that somebody else's finalizer keeps. */
  function Leftover(block: Prefix): ClusterConfig {
    ClusterConfig([AddPatch("/x", Block(block))], false, true, true)
  }

  function AfterRelease(p: Prefix, block: Prefix): State {
    State(OneParent(p), Free(p), map[], map[A := map[R := Leftover(block)]])
  }

  lemma FitsFree(p: Prefix, block: Prefix)
    requires StrictlyCovers(p, block)
    ensures Fits(Free(p), p, block) && Free(p)[block := Some(p)] == Taken(p, block)
  {
  }

  function FirstServed(p: Prefix, block: Prefix): State {
    State(OneParent(p), Taken(p, block), map[A := OneRecord(block)], map[A := map[R := OneConfig(block)]])
  }

  lemma ServedRun(next: Relation, p: Prefix, block: Prefix) returns (states: seq<State>, steps: seq<Step>)
    requires HasSafeSteps(next) && StrictlyCovers(p, block)
    ensures FromFirst(next, p, states, steps) && states[|steps|] == FirstServed(p, block)
  {
    FitsFree(p, block);
    var s := First(OneParent(p), Free(p));
    states, steps := Serve(next, [s], [], s, A, p, block);
    assert Served(s, A, p, block) == FirstServed(p, block);
  }

  /** A cluster is served, another controller sets its finalizer, and the cluster is deleted and
      its block released. */
  lemma ReleasedRun(next: Relation, p: Prefix, block: Prefix) returns (states: seq<State>, steps: seq<Step>)
    requires HasSafeSteps(next) && StrictlyCovers(p, block)
    ensures FromFirst(next, p, states, steps) && states[|steps|] == AfterRelease(p, block)
  {
    var s := FirstServed(p, block);
    var cc := OneConfig(block).(foreign := true);
    var s3 := s.(ccs := map[A := map[R := cc]]);
    states, steps := ServedRun(next, p, block);
    OnlyConfigChanges(s, A, Some(cc));
    SetsForeign(next, s, Owner(A, R), s3);
    states, steps := Extend(next, states, steps, SetForeign(Owner(A, R)), s3);
    states, steps := GoneAndReleased(next, states, steps, s3, p, block);
  }

  lemma GoneAndReleased(next: Relation, states: seq<State>, steps: seq<Step>, s: State, p: Prefix, block: Prefix)
      returns (states': seq<State>, steps': seq<Step>)
    requires HasSafeSteps(next) && Chain(next, states, steps) && states[|steps|] == s && StrictlyCovers(p, block)
    requires s == FirstServed(p, block).(ccs := map[A := map[R := OneConfig(block).(foreign := true)]])
    ensures Chain(next, states', steps') && states'[0] == states[0] && states'[|steps'|] == AfterRelease(p, block)
  {
    var t := s.(clusters := map[]);
    Deletes(next, s, A);
    assert s.clusters - {A} == map[];
    states', steps' := Extend(next, states, steps, DeleteCluster(A), t);
    FirstRelease(next, t, p, block);
    states', steps' := Extend(next, states', steps', ReleaseConfig(Owner(A, R), true), AfterRelease(p, block));
  }

  lemma FirstRelease(next: Relation, s: State, p: Prefix, block: Prefix)
    requires HasSafeSteps(next) && StrictlyCovers(p, block)
    requires s == State(OneParent(p), Taken(p, block), map[], map[A := map[R := OneConfig(block).(foreign := true)]])
    ensures next(s, ReleaseConfig(Owner(A, R), true), AfterRelease(p, block))
  {
    OnlyConfigChanges(s, A, Some(Leftover(block)));
    ReleasesBlock(s, Owner(A, R), p, block, AfterRelease(p, block));
    Releases(next, s, Owner(A, R), AfterRelease(p, block));
  }

  lemma BlockReleased(p: Prefix, block: Prefix, patches: seq<Patch>)
    requires StrictlyCovers(p, block) && patches == [AddPatch("/x", Block(block))]
    ensures ListReleased(Taken(p, block), patches, Free(p)) && Listed(patches) == {block}
  {
    assert patches[..0] == [];
    assert Listed(patches) == {block};
    AllReleased(Taken(p, block), patches);
    assert Taken(p, block) - {block} == Free(p);
  }

  /** Releasing a ClusterConfig with a foreign finalizer, from an allocator that has its block. */
  lemma ReleasesBlock(s: State, o: Owner, p: Prefix, block: Prefix, s': State)
    requires o.cluster !in s.clusters && HasConfig(s, o) && s.ipam == Taken(p, block) && StrictlyCovers(p, block)
    requires ConfigOf(s, o).foreign && ConfigOf(s, o).patches == [AddPatch("/x", Block(block))]
    requires s' == WithConfig(s, o, Some(Leftover(block))).(ipam := Free(p))
    ensures ReleaseStep(s, o, true, s')
  {
    BlockReleased(p, block, ConfigOf(s, o).patches);
    assert AfterDelete(ConfigOf(s, o).(finalizer := false)) == Some(Leftover(block));
  }

  /** A safe run, one step that is not safe, and more safe steps. */
  ghost predicate UnsafeOnce(before: seq<State>, steps: seq<Step>, unsafe: Step, after: seq<State>, more: seq<Step>) {
    && SafeRun(Same, before, steps) && SafelyFollows(Same, after, more)
    && Next(Same, before[|steps|], unsafe, after[0]) && !SafeStep(before[|steps|], unsafe)
  }

  lemma Assembled(p: Prefix, before: seq<State>, steps: seq<Step>, unsafe: Step, after: seq<State>, more: seq<Step>)
    requires FromFirst(SafeNextOf(Same), p, before, steps) && Chain(SafeNextOf(Same), after, more)
    requires Next(Same, before[|steps|], unsafe, after[0]) && !SafeStep(before[|steps|], unsafe)
    ensures UnsafeOnce(before, steps, unsafe, after, more)
  {
    FromFirstIsRun(p, before, steps);
  }

  /** The block of cluster b is released a second time, because a ClusterConfig of the deleted
      cluster a still lists it, and then handed out to cluster c as well. */
  lemma SecondRelease(p: Prefix, block: Prefix)
      returns (before: seq<State>, steps: seq<Step>, after: seq<State>, more: seq<Step>)
    requires StrictlyCovers(p, block)
    ensures UnsafeOnce(before, steps, ReleaseConfig(Owner(A, R), true), after, more)
    ensures Holds(after[|more|], Owner(B, R), block) && Holds(after[|more|], Owner(C, R), block)
  {
    SafeHasSafeSteps();
    before, steps := ServedAfterRelease(SafeNextOf(Same), p, block);
    after, more := ServedOnceMore(SafeNextOf(Same), p, block);
    ReleasesAgain(Served(AfterRelease(p, block), B, p, block), p, block);
    Assembled(p, before, steps, ReleaseConfig(Owner(A, R), true), after, more);
  }

  lemma ServedAfterRelease(next: Relation, p: Prefix, block: Prefix) returns (states: seq<State>, steps: seq<Step>)
    requires HasSafeSteps(next) && StrictlyCovers(p, block)
    ensures FromFirst(next, p, states, steps) && states[|steps|] == Served(AfterRelease(p, block), B, p, block)
  {
    FitsFree(p, block);
    states, steps := ReleasedRun(next, p, block);
    states, steps := Serve(next, states, steps, AfterRelease(p, block), B, p, block);
  }

  lemma ServedOnceMore(next: Relation, p: Prefix, block: Prefix) returns (states: seq<State>, steps: seq<Step>)
    requires HasSafeSteps(next) && StrictlyCovers(p, block)
    ensures Chain(next, states, steps) && states[0] == Served(AfterRelease(p, block), B, p, block).(ipam := Free(p))
    ensures Holds(states[|steps|], Owner(B, R), block) && Holds(states[|steps|], Owner(C, R), block)
  {
    var s := Served(AfterRelease(p, block), B, p, block).(ipam := Free(p));
    FitsFree(p, block);
    states, steps := Serve(next, [s], [], s, C, p, block);
    HoldsServed(states[|steps|], B, block);
    HoldsServed(states[|steps|], C, block);
  }

  lemma ReleasesAgain(s: State, p: Prefix, block: Prefix)
    requires StrictlyCovers(p, block) && s == Served(AfterRelease(p, block), B, p, block)
    ensures Next(Same, s, ReleaseConfig(Owner(A, R), true), s.(ipam := Free(p)))
    ensures !SafeStep(s, ReleaseConfig(Owner(A, R), true))
  {
    var o, s' := Owner(A, R), s.(ipam := Free(p));
    FitsFree(p, block);
    assert HasConfig(s, o) && ConfigOf(s, o) == Leftover(block);
    OnlyConfigChanges(s, A, Some(Leftover(block)));
    assert s.ccs[A := s.ccs[A]] == s.ccs;
    ReleasesBlock(s, o, p, block, s');
    var step := ReleaseConfig(o, true);
    assert Next(Same, s, step, s');
    BlockReleased(p, block, ConfigOf(s, o).patches);
    assert block in Listed(ConfigOf(s, o).patches) && block in s.ipam;
  }

  lemma HoldsServed(s: State, cl: string, block: Prefix)
    requires cl in s.clusters && s.clusters[cl] == OneRecord(block)
    ensures Holds(s, Owner(cl, R), block)
  {
    assert "/x" in s.clusters[cl][R];
  }

  // ----- A cluster that matches no rule -----

  /** The ClusterConfig of a cluster that matches no rule is lost; a rebuild forgets the block,
      which goes to another cluster although the first one's annotation still has it. */
  lemma UnmatchedLost(p: Prefix, block: Prefix)
      returns (before: seq<State>, steps: seq<Step>, after: seq<State>, more: seq<Step>)
    requires StrictlyCovers(p, block)
    ensures UnsafeOnce(before, steps, RebuildIpam({}), after, more)
    ensures Holds(after[|more|], Owner(A, R), block) && Holds(after[|more|], Owner(B, R), block)
  {
    SafeHasSafeSteps();
    before, steps := LostRun(SafeNextOf(Same), p, block);
    after, more := ServedDespite(SafeNextOf(Same), p, block);
    ForgetsBlock(FirstServed(p, block).(ccs := map[A := map[]]), p, block);
    Assembled(p, before, steps, RebuildIpam({}), after, more);
  }

  lemma LostRun(next: Relation, p: Prefix, block: Prefix) returns (states: seq<State>, steps: seq<Step>)
    requires HasSafeSteps(next) && StrictlyCovers(p, block)
    ensures FromFirst(next, p, states, steps) && states[|steps|] == FirstServed(p, block).(ccs := map[A := map[]])
  {
    var s := FirstServed(p, block);
    states, steps := ServedRun(next, p, block);
    OnlyConfigChanges(s, A, None);
    LosesConfig(next, s, Owner(A, R), s.(ccs := map[A := map[]]));
    states, steps := Extend(next, states, steps, LoseConfig(Owner(A, R)), s.(ccs := map[A := map[]]));
  }

  lemma ServedDespite(next: Relation, p: Prefix, block: Prefix) returns (states: seq<State>, steps: seq<Step>)
    requires HasSafeSteps(next) && StrictlyCovers(p, block)
    ensures Chain(next, states, steps) && states[0] == FirstServed(p, block).(ccs := map[A := map[]], ipam := Free(p))
    ensures Holds(states[|steps|], Owner(A, R), block) && Holds(states[|steps|], Owner(B, R), block)
  {
    var s := FirstServed(p, block).(ccs := map[A := map[]], ipam := Free(p));
    FitsFree(p, block);
    states, steps := Serve(next, [s], [], s, B, p, block);
    HoldsServed(states[|steps|], A, block);
    HoldsServed(states[|steps|], B, block);
  }

  lemma ForgetsBlock(s: State, p: Prefix, block: Prefix)
    requires s == State(OneParent(p), s.ipam, map[A := OneRecord(block)], map[A := map[]])
    ensures Next(Same, s, RebuildIpam({}), s.(ipam := Free(p))) && !SafeStep(s, RebuildIpam({}))
  {
    assert Handled(s.ccs, {}) == map[];
    RebuildsToParent(s, p, {});
    var step := RebuildIpam({});
    assert RebuildStep(s, {}, s.(ipam := Free(p)));
    assert Next(Same, s, step, s.(ipam := Free(p)));
    assert "/x" in s.clusters[A][R];
    assert InAnnotation(s, Owner(A, R), block) && !InConfig(s, Owner(A, R), block);
    assert !CoveredCluster(s, A);
  }

  // ----- A cluster of the same name -----

  /** A cluster is created again while a released ClusterConfig of its name is left: the next
      reconcile takes the block from there into the annotation, although it has gone to another
      cluster. */
  lemma Recreated(p: Prefix, block: Prefix)
      returns (before: seq<State>, steps: seq<Step>, after: seq<State>, more: seq<Step>)
    requires StrictlyCovers(p, block)
    ensures UnsafeOnce(before, steps, CreateCluster(A), after, more)
    ensures Holds(after[|more|], Owner(A, R), block) && Holds(after[|more|], Owner(B, R), block)
  {
    SafeHasSafeSteps();
    before, steps := ReleasedRun(SafeNextOf(Same), p, block);
    after, more := TakenOver(SafeNextOf(Same), p, block);
    assert ConfigsOf(AfterRelease(p, block), A)[R] == Leftover(block);
    CreatesUnsafely(AfterRelease(p, block), A);
    Assembled(p, before, steps, CreateCluster(A), after, more);
  }

  lemma TakenOver(next: Relation, p: Prefix, block: Prefix) returns (states: seq<State>, steps: seq<Step>)
    requires HasSafeSteps(next) && StrictlyCovers(p, block)
    ensures Chain(next, states, steps) && states[0] == AfterRelease(p, block).(clusters := map[A := map[]])
    ensures Holds(states[|steps|], Owner(A, R), block) && Holds(states[|steps|], Owner(B, R), block)
  {
    var s1 := AfterRelease(p, block).(clusters := map[A := map[]]);
    var s := Served(s1, B, p, block);
    var t := s.(clusters := s.clusters[A := OneRecord(block)]);
    FitsFree(p, block);
    states, steps := Serve(next, [s1], [], s1, B, p, block);
    MergesLeftover(s, A, block, t);
    Reconciles(next, s, A, [OnePathRule(R, block.len)], t);
    states, steps := Extend(next, states, steps, Reconcile(A, [OnePathRule(R, block.len)]), t);
    HoldsServed(t, A, block);
    HoldsServed(t, B, block);
  }

  lemma CreatesUnsafely(s: State, cl: string)
    requires cl !in s.clusters && !AllHeld(ConfigsOf(s, cl))
    ensures Next(Same, s, CreateCluster(cl), s.(clusters := s.clusters[cl := map[]])) && !SafeStep(s, CreateCluster(cl))
  {
    var step, s' := CreateCluster(cl), s.(clusters := s.clusters[cl := map[]]);
    assert Next(Same, s, step, s');
  }

  lemma LeftoverMerged(block: Prefix)
    ensures var ccs: ClusterConfigs := map[R := Leftover(block)];
      && Mergeable(map[], ccs) && MergedTo(map[], ccs, OneRecord(block))
      && CheckSpec(OneRecord(block), ccs, Instruction(map[], map[]))
  {
    var ccs: ClusterConfigs, none: Injections := map[R := Leftover(block)], map[];
    var patches := Leftover(block).patches;
    assert patches[..0] == [] && MergePatches(none, []) == Some(none);
    assert MergePatches(none, patches) == Some(map["/x" := Block(block)]);
    assert MergeRule(map[], ccs, R) == Some(map["/x" := Block(block)]);
    assert patches[0].path == "/x" && HasPath(patches, "/x");
    assert MissingOf(OneRecord(block), ccs, R) == map[];
  }

  lemma NothingApplied(ccs: ClusterConfigs, m: Managed)
    requires m.instruction == Instruction(map[], map[]) && m.work.creates == []
    ensures AfterReconcile(ccs, m) == (ccs, true)
  {
    assert Apply(ccs, m.instruction) == ccs;
  }

  lemma MergesLeftover(s: State, cl: string, block: Prefix, s': State)
    requires cl in s.clusters && s.clusters[cl] == map[] && ConfigsOf(s, cl) == map[R := Leftover(block)] && cl in s.ccs
    requires s' == s.(clusters := s.clusters[cl := OneRecord(block)])
    ensures ReconcileStep(s, cl, [OnePathRule(R, block.len)], Same, s')
  {
    var rule, ccs := OnePathRule(R, block.len), ConfigsOf(s, cl);
    var w0 := Work(s.ipam, OneRecord(block), [], {}, {}, false);
    var w1 := w0.(skipped := {R});
    var m := Managed(Instruction(map[], map[]), OneRecord(block), w1);
    SkippedManaged(s.parents, s.clusters[cl], ccs, block, w0, w1);
    NothingApplied(ccs, m);
    assert s.ccs[cl := ccs] == s.ccs && Ids([rule]) == [R];
    FromManaged(s, cl, [rule], [w0, w1], m, s');
  }

  lemma SkippedManaged(parents: map<string, seq<Prefix>>, applied: AppliedRules, ccs: ClusterConfigs, block: Prefix,
                       w0: Work, w1: Work)
    requires applied == map[] && ccs == map[R := Leftover(block)]
    requires w0 == Work(w0.ipam, OneRecord(block), [], {}, {}, false) && w1 == w0.(skipped := {R})
    ensures ManageSpec(w0.ipam, applied, ccs, [OnePathRule(R, block.len)], parents, Same, [w0, w1],
                       Some(Managed(Instruction(map[], map[]), OneRecord(block), w1)), w1.ipam)
  {
    RunOfOne(Context(OneRecord(block), parents, Same), OnePathRule(R, block.len), w0, w1);
    LeftoverMerged(block);
  }

  // ----- A parent taken out of the configuration -----

  /** A block, and a smaller one inside it. */
  function NestedRule(outer: Prefix, inner: Prefix): Rule {
    Rule(R, [Injection("outer", "/nodes", [], ["net"], outer.len), Injection("", "/pods", [], ["outer"], inner.len)])
  }

  function NestedConfig(outer: Prefix, inner: Prefix): ClusterConfig {
    ClusterConfig(TwoPatches(outer, inner), true, false, false)
  }

  function NestedRaw(outer: Prefix, inner: Prefix): map<string, Prefix> {
    map["/nodes" := outer, "/pods" := inner]
  }

  function NestedTaken(p: Prefix, outer: Prefix, inner: Prefix): Allocator {
    map[p := None, outer := Some(p), inner := Some(outer)]
  }

  lemma NestedRuleFacts(outer: Prefix, inner: Prefix)
    ensures PathsFree(NestedRule(outer, inner))
  {
    NestedAllPaths(outer, inner);
    TwoPathsConverted();
    NestedNormalized(outer, inner);
  }

  lemma NestedAllPaths(outer: Prefix, inner: Prefix)
    ensures AllPaths(NestedRule(outer, inner).injections) == ["/nodes", "/pods"]
  {
    var injs := NestedRule(outer, inner).injections;
    NestedPaths(outer, inner);
    assert injs[..1][..0] == [] && injs[..1][0] == injs[0];
    assert AllPaths(injs[..1]) == ["/nodes"];
    assert AllPaths(injs) == AllPaths(injs[..1]) + GetPaths(injs[1]);
  }

  lemma TwoPathsConverted()
    ensures var paths := ["/nodes", "/pods"];
      AllConvertible(Same, paths) && !HasIssue(Same, paths, InjectedPaths(map[]))
  {
    var paths := ["/nodes", "/pods"];
    assert paths[..1] == ["/nodes"] && paths[..1][..0] == [];
    assert Converted(Same, paths[..1]) == ["/nodes"];
    assert Converted(Same, paths) == paths;
    assert paths[0] != paths[1];
  }

  lemma NestedNormalized(outer: Prefix, inner: Prefix)
    ensures NormRule(Same, NestedRule(outer, inner)) == NestedRule(outer, inner)
  {
    var rule := NestedRule(outer, inner);
    assert NormPaths(Same, []) == [];
    assert NormInjection(Same, rule.injections[0]) == rule.injections[0];
    assert NormInjection(Same, rule.injections[1]) == rule.injections[1];
    assert NormRule(Same, rule).injections == rule.injections;
  }

  /** The next injection names one parent, which stands for one prefix that has room. */
  lemma NamedPick(a: Allocator, injs: seq<Injection>, parents: map<string, seq<Prefix>>, trace: seq<Pick>, id: string,
                  host: Prefix, block: Prefix)
    requires |trace| < |injs| && injs[|trace|].parents == [id] && block.len == injs[|trace|].subnetSize
    requires PrefixesFor(id, LocalsAfter(injs, trace), parents, StateAfter(a, trace)) == [host]
    requires Fits(StateAfter(a, trace), host, block)
    ensures ValidPick(a, injs, parents, trace, Pick([id], host, block))
  {
    var now, locals := StateAfter(a, trace), LocalsAfter(injs, trace);
    assert [id][..0] == [] && CandidatesFor([], locals, parents, now) == [];
    assert CandidatesFor([id], locals, parents, now) == [host];
    assert [host][..0] == [] && NoneFits(now, [], block.len);
    assert FirstFit(now, [host], block.len, host, block);
  }

  lemma GeneratesNested(p: Prefix, outer: Prefix, inner: Prefix) returns (trace: seq<Pick>)
    requires StrictlyCovers(p, outer) && StrictlyCovers(outer, inner)
    ensures GenerateSpec(Free(p), NestedRule(outer, inner).injections, OneParent(p), trace,
                         Some(NestedRaw(outer, inner)),
                         NestedTaken(p, outer, inner))
  {
    var a, injs, parents := Free(p), NestedRule(outer, inner).injections, OneParent(p);
    var none: seq<Pick> := [];
    var first, second := Pick(["net"], p, outer), Pick(["outer"], outer, inner);
    assert RegisteredOnly([p], a) == [p] by {
      assert [p][..0] == [] && RegisteredOnly([], a) == [];
    }
    NamedPick(a, injs, parents, none, "net", p, outer);
    OneMorePick(a, injs, parents, none, first);
    assert none + [first] == [first];
    assert LocalsAfter(injs, [first]) == map["outer" := outer] && StateAfter(a, [first]) == Taken(p, outer);
    NamedPick(a, injs, parents, [first], "outer", outer, inner);
    OneMorePick(a, injs, parents, [first], second);
    trace := [first] + [second];
    NestedPaths(outer, inner);
    assert RawAfter(injs, [first]) == SetPaths(map[], ["/nodes"], outer);
  }

  lemma NestedPaths(outer: Prefix, inner: Prefix)
    ensures SetPaths(map[], ["/nodes"], outer) == map["/nodes" := outer]
    ensures SetPaths(map["/nodes" := outer], ["/pods"], inner) == NestedRaw(outer, inner)
    ensures GetPaths(NestedRule(outer, inner).injections[0]) == ["/nodes"]
    ensures GetPaths(NestedRule(outer, inner).injections[1]) == ["/pods"]
  {
    assert ["/nodes"][..0] == [] && ["/pods"][..0] == [];
  }

  lemma NestedConfigGenerated(outer: Prefix, inner: Prefix)
    requires outer.len < inner.len
    ensures Generated(AsInjections(NestedRaw(outer, inner)), NestedConfig(outer, inner))
  {
    var order, inj := ["/nodes", "/pods"], AsInjections(NestedRaw(outer, inner));
    assert Enumerates(order, inj.Keys);
    var list := Listing(order, inj);
    assert list == TwoPatches(outer, inner);
    TwoInOrder(list[0], list[1]);
    assert list == [list[0], list[1]];
  }

  lemma TwoInOrder(x: Patch, y: Patch)
    requires !Less(y, x)
    ensures SortPatches([x, y]) == [x, y]
  {
    SortTheorems.ShortStaysSorted([x, y]);
  }

  function Nested(p: Prefix, outer: Prefix, inner: Prefix): State {
    State(OneParent(p), NestedTaken(p, outer, inner), map[A := map[R := AsInjections(NestedRaw(outer, inner))]],
          map[A := map[R := NestedConfig(outer, inner)]])
  }

  lemma NestedRun(next: Relation, p: Prefix, outer: Prefix, inner: Prefix) returns (states: seq<State>,
                  steps: seq<Step>)
    requires HasSafeSteps(next) && StrictlyCovers(p, outer) && StrictlyCovers(outer, inner)
    ensures FromFirst(next, p, states, steps) && states[|steps|] == Nested(p, outer, inner)
  {
    var s := First(OneParent(p), Free(p));
    var s1 := s.(clusters := map[A := map[]]);
    Creates(next, s, A);
    assert s.clusters[A := map[]] == map[A := map[]];
    states, steps := Extend(next, [s], [], CreateCluster(A), s1);
    NestedReconciled(s1, p, outer, inner);
    Reconciles(next, s1, A, [NestedRule(outer, inner)], Nested(p, outer, inner));
    states, steps := Extend(next, states, steps, Reconcile(A, [NestedRule(outer, inner)]), Nested(p, outer, inner));
  }

  lemma NestedReconciled(s: State, p: Prefix, outer: Prefix, inner: Prefix)
    requires StrictlyCovers(p, outer) && StrictlyCovers(outer, inner)
    requires s == State(OneParent(p), Free(p), map[A := map[]], map[])
    ensures ReconcileStep(s, A, [NestedRule(outer, inner)], Same, Nested(p, outer, inner))
  {
    var rule, raw, b := NestedRule(outer, inner), NestedRaw(outer, inner), NestedTaken(p, outer, inner);
    NestedRuleFacts(outer, inner);
    NestedConfigGenerated(outer, inner);
    var trace := GeneratesNested(p, outer, inner);
    FirstReconcile(s, A, rule, trace, raw, b, NestedConfig(outer, inner));
    NestedIsFirst(s, p, outer, inner);
  }

  lemma NestedIsFirst(s: State, p: Prefix, outer: Prefix, inner: Prefix)
    requires s == State(OneParent(p), Free(p), map[A := map[]], map[])
    ensures AfterFirst(s, A, NestedRule(outer, inner), NestedRaw(outer, inner), NestedTaken(p, outer, inner),
                       NestedConfig(outer, inner))
         == Nested(p, outer, inner)
  {
  }

  lemma ChangesTo(next: Relation, s: State, parents: map<string, seq<Prefix>>)
    requires HasSafeSteps(next) && ParentsOk(parents) && ConfigFits(s, parents) && ParentsOnTop(s, parents)
    ensures next(s, ChangeConfig(parents), s.(parents := parents))
  {
    var step, s' := ChangeConfig(parents), s.(parents := parents);
    assert Next(Same, s, step, s') && SafeStep(s, step);
  }

  /** A safe run after which every rebuild fails: a cluster gets a block and another one inside
      it, and then the parent is taken out of the configuration.  The cluster is repaired and
      nothing was lost. */
  lemma RemovedParent(p: Prefix, outer: Prefix, inner: Prefix) returns (states: seq<State>, steps: seq<Step>)
    requires StrictlyCovers(p, outer) && StrictlyCovers(outer, inner)
    ensures SafeRun(Same, states, steps) && states[|steps|] == Nested(p, outer, inner).(parents := map[])
    ensures ReadyToRebuild(states[|steps|], {A}) && RebuildsTo(states[|steps|], {A}, None)
    ensures forall relevant, r | RebuildsTo(states[|steps|], relevant, r) :: r.None?
  {
    var s := Nested(p, outer, inner);
    SafeHasSafeSteps();
    states, steps := NestedRun(SafeNextOf(Same), p, outer, inner);
    ChangesTo(SafeNextOf(Same), s, map[]);
    states, steps := Extend(SafeNextOf(Same), states, steps, ChangeConfig(map[]), s.(parents := map[]));
    FromFirstIsRun(p, states, steps);
    NestedFails(s.(parents := map[]), outer, inner);
    NestedIsRepaired(s.(parents := map[]), outer, inner);
    FailsAlways(states, steps);
  }

  /** If one rebuild of a reachable state fails, every other one does. */
  lemma FailsAlways(states: seq<State>, steps: seq<Step>)
    requires SafeRun(Same, states, steps) && RebuildsTo(states[|steps|], {A}, None)
    ensures forall relevant, r | RebuildsTo(states[|steps|], relevant, r) :: r.None?
  {
    SystemTheorems.RebuildInReachable(Same, states, steps, |steps|, {A}, None);
    forall relevant, r | RebuildsTo(states[|steps|], relevant, r)
      ensures r.None?
    {
      SystemTheorems.RebuildInReachable(Same, states, steps, |steps|, relevant, r);
    }
  }

  lemma NestedFails(s: State, outer: Prefix, inner: Prefix)
    requires StrictlyCovers(outer, inner) && s.parents == map[] && A in s.clusters
    requires s.ccs == map[A := map[R := NestedConfig(outer, inner)]]
    ensures RebuildsTo(s, {A}, None)
  {
    var ids: seq<string>, keys := [], [Owner(A, R)];
    var h := Handled(s.ccs, {A});
    assert h == map[Owner(A, R) := TwoPatches(outer, inner)];
    assert Enumerates(ids, s.parents.Keys) && Enumerates(keys, h.Keys);
    assert ListsIn(keys, h) == [TwoPatches(outer, inner)] && Flatten(ids, s.parents) == [];
    NestedBlocksNeedAParent(outer, inner);
  }

  lemma NestedIsRepaired(s: State, outer: Prefix, inner: Prefix)
    requires s.clusters == map[A := map[R := AsInjections(NestedRaw(outer, inner))]]
    requires s.ccs == map[A := map[R := NestedConfig(outer, inner)]]
    ensures ReadyToRebuild(s, {A})
  {
    forall r
      ensures !NeedsCreate(s.clusters[A], ConfigsOf(s, A), r) && !NeedsUpdate(s.clusters[A], ConfigsOf(s, A), r)
    {
      NestedIsComplete(outer, inner);
    }
  }

  lemma NestedIsComplete(outer: Prefix, inner: Prefix)
    ensures MissingOf(map[R := AsInjections(NestedRaw(outer, inner))], map[R := NestedConfig(outer, inner)], R) == map[]
  {
    var patches := TwoPatches(outer, inner);
    assert patches[0].path == "/nodes" && patches[1].path == "/pods";
    assert HasPath(patches, "/nodes") && HasPath(patches, "/pods");
  }

  /** With concrete addresses: 10.0.0.0/16 is the parent, 10.0.0.0/24 and 10.0.0.0/28 are the
      blocks. */
  lemma RemovedParentExample() returns (states: seq<State>, steps: seq<Step>)
    ensures SafeRun(Same, states, steps)
    ensures ReadyToRebuild(states[|steps|], {A}) && RebuildsTo(states[|steps|], {A}, None)
    ensures forall relevant, r | RebuildsTo(states[|steps|], relevant, r) :: r.None?
  {
    PrivateBlock(16);
    var outer, inner := NestedBlocksExample();
    Pow2Strict(8, 16);
    Pow2Strict(4, 8);
    states, steps := RemovedParent(Cidr(0x0A000000, 16), outer, inner);
  }

  // ----- A parent added to the configuration -----

  /** If none of the configured parents is registered, no rule with an injection gets a block. */
  lemma UnregisteredParentsGiveNothing(a: Allocator, injs: seq<Injection>, parents: map<string, seq<Prefix>>,
                                       trace: seq<Pick>, r: Option<map<string, Prefix>>, b: Allocator)
    requires GenerateSpec(a, injs, parents, trace, r, b) && injs != []
    requires forall p | IsParent(parents, p) :: p !in a
    ensures r.None? && b == a
  {
    if trace != [] {
      FirstPick(a, injs, parents, trace);
      assert false;
    }
    NothingToRollBack(a, injs, b);
  }

  lemma NothingToRollBack(a: Allocator, injs: seq<Injection>, b: Allocator)
    requires RolledBack(StateAfter(a, []), RawAfter(injs, []), b)
    ensures b == a
  {
    var raw: map<string, Prefix> := map[];
    var order: seq<string> :| Enumerates(order, raw.Keys) && ReleasedInOrder(a, ValuesIn(order, raw), b);
    assert order == [];
    assert ValuesIn(order, raw) == [];
  }

  lemma {:induction false} FirstPick(a: Allocator, injs: seq<Injection>, parents: map<string, seq<Prefix>>,
                                     trace: seq<Pick>)
    requires trace != [] && |trace| <= |injs| && ValidTrace(a, injs, parents, trace)
    ensures exists p :: IsParent(parents, p) && p in a
  {
    if |trace| > 1 {
      FirstPick(a, injs, parents, trace[..|trace| - 1]);
    } else {
      var pick := trace[0];
      assert trace[..0] == [];
      CandidateOrigin(pick.ids, LocalsAfter(injs, []), parents, a, pick.host);
    }
  }

  /** A safe run after which a parent is configured and free, and yet a rule that names it gets
      nothing, whatever the library does; the next rebuild is what registers it. */
  lemma AddedParent(p: Prefix, len: MaskLength) returns (states: seq<State>, steps: seq<Step>)
    ensures SafeRun(Same, states, steps)
    ensures states[|steps|] == State(OneParent(p), map[], map[A := map[]], map[])
    ensures forall ws, m, s' | ReconcileWith(states[|steps|], A, [OnePathRule(R, len)], Same, ws, Some(m), s') ::
      m.work.failed && s'.ipam == map[] && s'.clusters[A] == map[]
    ensures RebuildsTo(states[|steps|], {A}, Some(Free(p)))
  {
    var s := State(OneParent(p), map[], map[A := map[]], map[]);
    states, steps := AddedParentRun(SafeNextOf(Same), p);
    NothingConfigured();
    forall ws, m, s' | ReconcileWith(s, A, [OnePathRule(R, len)], Same, ws, Some(m), s')
      ensures m.work.failed && s'.ipam == map[] && s'.clusters[A] == map[]
    {
      GetsNothing(s, len, ws, m, s');
    }
    assert Handled(s.ccs, {A}) == map[];
    RebuildsToParent(s, p, {A});
  }

  lemma NothingConfigured()
    ensures Init(First(map[], map[]))
  {
    var s := First(map[], map[]);
    var ids: seq<string>, keys: seq<Owner> := [], [];
    assert Handled(s.ccs, {}) == map[];
    assert Enumerates(ids, s.parents.Keys) && Enumerates(keys, Handled(s.ccs, {}).Keys);
    assert Flatten(ids, s.parents) == [] && ListsIn(keys, Handled(s.ccs, {})) == [];
    assert RebuildFrom([], []) == Some(map[]);
  }

  lemma AddedParentRun(next: Relation, p: Prefix) returns (states: seq<State>, steps: seq<Step>)
    requires HasSafeSteps(next)
    ensures Chain(next, states, steps) && states[0] == First(map[], map[])
    ensures states[|steps|] == State(OneParent(p), map[], map[A := map[]], map[])
  {
    var s := First(map[], map[]);
    var s1 := First(OneParent(p), map[]);
    ChangesTo(next, s, OneParent(p));
    states, steps := Extend(next, [s], [], ChangeConfig(OneParent(p)), s1);
    Creates(next, s1, A);
    states, steps := Extend(next, states, steps, CreateCluster(A), s1.(clusters := s1.clusters[A := map[]]));
  }

  lemma GetsNothing(s: State, len: MaskLength, ws: seq<Work>, m: Managed, s': State)
    requires s.clusters == map[A := map[]] && s.ccs == map[] && s.ipam == map[]
    requires ReconcileWith(s, A, [OnePathRule(R, len)], Same, ws, Some(m), s')
    ensures m.work.failed && s'.ipam == map[] && s'.clusters[A] == map[]
  {
    var rule, ctx := OnePathRule(R, len), Context(m.merged, s.parents, Same);
    assert m.merged == map[];
    OnePathRuleFacts(R, len);
    LastStep(ctx, [rule], ws);
    assert [rule][..0] == [] && RulesRun(ctx, [], ws[..1]);
    var trace, r :| GenerateSpec(ws[0].ipam, NormRule(Same, rule).injections, s.parents, trace, r, ws[1].ipam)
      && Recorded(ctx, ws[0], rule, r, ws[1]);
    UnregisteredParentsGiveNothing(map[], rule.injections, s.parents, trace, r, ws[1].ipam);
  }
}
