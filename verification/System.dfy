/** The controller and the platform cluster as a state machine.  Each step is one atomic
    action of the code (a reconcile or the repair of one cluster, together with all or some of
    its writes, the release of one ClusterConfig, a rebuild, a change of the configuration, a
    restart) or something that happens outside (clusters come and go, one of the two copies
    of a record gets lost, somebody sets or clears a finalizer). */
module System {
  import opened Prefixes
  import opened Forest
  import opened GoIpam
  import opened Config
  import opened Chains
  import opened Patches
  import opened Repair
  import opened Release
  import opened Rebuild
  import opened RebuildTheorems
  import opened InjectionManagement
  import opened InjectionTheorems

  /** Clusters are known by name; `clusters` maps the existing ones to their annotation. */
  datatype State = State(
    parents: map<string, seq<Prefix>>, ipam: Allocator,
    clusters: map<string, AppliedRules>, ccs: map<string, ClusterConfigs>)

  function ConfigsOf(s: State, cl: string): ClusterConfigs {
    if cl in s.ccs then s.ccs[cl] else map[]
  }

  datatype Owner = Owner(cluster: string, rule: RuleId)

  predicate HasConfig(s: State, o: Owner) {
    o.cluster in s.ccs && o.rule in s.ccs[o.cluster]
  }

  function ConfigOf(s: State, o: Owner): ClusterConfig
    requires HasConfig(s, o)
  {
    s.ccs[o.cluster][o.rule]
  }

  /** The state in which the owner has this ClusterConfig, or none. */
  function WithConfig(s: State, o: Owner, cc: Option<ClusterConfig>): State {
    var ccs := ConfigsOf(s, o.cluster);
    var ccs': ClusterConfigs := match cc case None => ccs - {o.rule} case Some(v) => ccs[o.rule := v];
    s.(ccs := s.ccs[o.cluster := ccs'])
  }

  function ConfigIn(ccs: ClusterConfigs, r: RuleId): Option<ClusterConfig> {
    if r in ccs then Some(ccs[r]) else None
  }

  /** The patch lists a rebuild takes in: those of the relevant clusters, and of the others
      those that hold the finalizer. */
  function Handled(ccs: map<string, ClusterConfigs>, relevant: set<string>): map<Owner, seq<Patch>> {
    map o | o in (set cl, r | cl in ccs && r in ccs[cl] :: Owner(cl, r))
      && (o.cluster in relevant || ccs[o.cluster][o.rule].finalizer) :: ccs[o.cluster][o.rule].patches
  }

  datatype Step =
    | CreateCluster(cluster: string)
    | DeleteCluster(cluster: string)
    | LoseAnnotation(cluster: string)
    | LoseConfig(owner: Owner)
    | LosePatch(owner: Owner, index: nat)
    | SetForeign(owner: Owner)
    | ClearForeign(owner: Owner)
    | DeleteConfig(owner: Owner)
    | Reconcile(cluster: string, rules: seq<Rule>)
    | ReconcilePartly(cluster: string, rules: seq<Rule>)
    | ReleaseConfig(owner: Owner, ok: bool)
    | RepairCluster(cluster: string)
    | RepairPartly(cluster: string)
    | RebuildIpam(relevant: set<string>)
    | ChangeConfig(parentCIDRs: map<string, seq<Prefix>>)
    | Restart(parentCIDRs: map<string, seq<Prefix>>, relevant: set<string>)

  // ----- Who holds a block -----

  ghost function RecordedBlocks(injections: Injections): set<Prefix> {
    set p | p in injections && injections[p].Block? :: injections[p].cidr
  }

  ghost predicate InAnnotation(s: State, o: Owner, c: Prefix) {
    o.cluster in s.clusters && o.rule in s.clusters[o.cluster] && c in RecordedBlocks(s.clusters[o.cluster][o.rule])
  }

  /** A ClusterConfig counts as long as it has the CIDR management finalizer. */
  ghost predicate InConfig(s: State, o: Owner, c: Prefix) {
    HasConfig(s, o) && ConfigOf(s, o).finalizer && c in BlockSet(ConfigOf(s, o).patches)
  }

  /** Either copy of the record names the block. */
  ghost predicate Holds(s: State, o: Owner, c: Prefix) {
    InAnnotation(s, o, c) || InConfig(s, o, c)
  }

  // ----- Steps of the environment -----

  ghost predicate CreateStep(s: State, cl: string, s': State) {
    cl !in s.clusters && s' == s.(clusters := s.clusters[cl := map[]])
  }

  ghost predicate DeleteStep(s: State, cl: string, s': State) {
    cl in s.clusters && s' == s.(clusters := s.clusters - {cl})
  }

  ghost predicate LoseAnnotationStep(s: State, cl: string, s': State) {
    cl in s.clusters && s' == s.(clusters := s.clusters[cl := map[]])
  }

  ghost predicate LoseConfigStep(s: State, o: Owner, s': State) {
    HasConfig(s, o) && s' == WithConfig(s, o, None)
  }

  ghost predicate LosePatchStep(s: State, o: Owner, i: nat, s': State) {
    && HasConfig(s, o) && i < |ConfigOf(s, o).patches|
    && s' == WithConfig(s, o, Some(LosingPatch(ConfigOf(s, o), i)))
  }

  function LosingPatch(cc: ClusterConfig, i: nat): ClusterConfig
    requires i < |cc.patches|
  {
    cc.(patches := cc.patches[..i] + cc.patches[i + 1..])
  }

  /** Another controller puts its finalizer on the object, which is possible until the object
      is in deletion. */
  ghost predicate SetForeignStep(s: State, o: Owner, s': State) {
    && HasConfig(s, o) && !ConfigOf(s, o).deleting
    && s' == WithConfig(s, o, Some(ConfigOf(s, o).(foreign := true)))
  }

  /** The other finalizers are taken off; an object in deletion without finalizers is gone. */
  ghost predicate ClearForeignStep(s: State, o: Owner, s': State) {
    && HasConfig(s, o) && ConfigOf(s, o).foreign
    && var cc := ConfigOf(s, o);
    && s' == WithConfig(s, o, if cc.deleting && !cc.finalizer then None else Some(cc.(foreign := false)))
  }

  // ----- Steps of the code -----

  ghost predicate ReconcileWith(s: State, cl: string, rules: seq<Rule>, conv: Conversion, ws: seq<Work>,
                                res: Option<Managed>, s': State) {
    && cl in s.clusters
    && ManageSpec(s.ipam, s.clusters[cl], ConfigsOf(s, cl), rules, s.parents, conv, ws, res, s'.ipam)
    && match res
       case None => s' == s
       case Some(m) =>
         s' == s.(ipam := s'.ipam, clusters := s.clusters[cl := m.work.annotation],
                  ccs := s.ccs[cl := AfterReconcile(ConfigsOf(s, cl), m).0])
  }

  ghost predicate ReconcileStep(s: State, cl: string, rules: seq<Rule>, conv: Conversion, s': State) {
    NoDuplicates(Ids(rules)) && exists ws, res :: ReconcileWith(s, cl, rules, conv, ws, res, s')
  }

  /** Of what was to be written for the cluster, only some was: the annotation and every
      ClusterConfig are, each by itself, as before or as intended. */
  ghost predicate PartlyWritten(s: State, intended: State, cl: string, s': State) {
    && cl in s.clusters
    && (s'.clusters == intended.clusters || s'.clusters == s.clusters)
    && s' == intended.(clusters := s'.clusters, ccs := intended.ccs[cl := ConfigsOf(s', cl)])
    && forall r :: PartOfConfigs(ConfigsOf(s, cl), ConfigsOf(intended, cl), ConfigsOf(s', cl), r)
  }

  predicate PartOfConfigs(was: ClusterConfigs, intended: ClusterConfigs, now: ClusterConfigs, r: RuleId) {
    ConfigIn(now, r) == ConfigIn(intended, r) || ConfigIn(now, r) == ConfigIn(was, r)
  }

  /** A reconcile, some of whose writes to the API server fail.  What it has acquired stays so. */
  ghost predicate ReconcilePartlyStep(s: State, cl: string, rules: seq<Rule>, conv: Conversion, s': State) {
    exists intended :: ReconcileStep(s, cl, rules, conv, intended) && PartlyWritten(s, intended, cl, s')
  }

  /** What the API server makes of a deletion: the object stays, marked, as long as any
      finalizer is left. */
  function AfterDelete(cc: ClusterConfig): Option<ClusterConfig> {
    if cc.finalizer || cc.foreign then Some(cc.(deleting := true)) else None
  }

  /** Somebody, or the handling of orphans, has the object deleted without a release. */
  ghost predicate DeleteConfigStep(s: State, o: Owner, s': State) {
    HasConfig(s, o) && s' == WithConfig(s, o, AfterDelete(ConfigOf(s, o)))
  }

  /** A ClusterConfig of a cluster that is gone is released and deleted; if the release fails
      it is only marked for deletion. */
  ghost predicate ReleaseStep(s: State, o: Owner, ok: bool, s': State) {
    && o.cluster !in s.clusters && HasConfig(s, o)
    && var cc := ConfigOf(s, o);
    && (if ok then ListReleased(s.ipam, cc.patches, s'.ipam) else s'.ipam == s.ipam)
    && s' == WithConfig(s, o, AfterDelete(if ok then cc.(finalizer := false) else cc)).(ipam := s'.ipam)
  }

  ghost predicate RepairStep(s: State, cl: string, s': State) {
    cl in s.clusters && exists ins ::
      CheckSpec(s.clusters[cl], ConfigsOf(s, cl), ins) && s' == s.(ccs := s.ccs[cl := Apply(ConfigsOf(s, cl), ins)])
  }

  ghost predicate RepairPartlyStep(s: State, cl: string, s': State) {
    exists intended :: RepairStep(s, cl, intended) && PartlyWritten(s, intended, cl, s')
  }

  /** Every block recorded in the cluster's annotation is also on a patch list. */
  ghost predicate CoveredCluster(s: State, cl: string) {
    forall r, c | InAnnotation(s, Owner(cl, r), c) :: InConfig(s, Owner(cl, r), c)
  }

  /** A repair of the cluster would find nothing to do. */
  ghost predicate RepairedCluster(s: State, cl: string) {
    cl in s.clusters && forall r ::
      !NeedsCreate(s.clusters[cl], ConfigsOf(s, cl), r) && !NeedsUpdate(s.clusters[cl], ConfigsOf(s, cl), r)
  }

  /** The relevant clusters exist and have been repaired. */
  ghost predicate ReadyToRebuild(s: State, relevant: set<string>) {
    forall cl | cl in relevant :: RepairedCluster(s, cl)
  }

  ghost predicate RebuildsTo(s: State, relevant: set<string>, r: Option<Allocator>) {
    && relevant <= s.clusters.Keys
    && exists ids: seq<string>, keys: seq<Owner> ::
       && Enumerates(ids, s.parents.Keys) && Enumerates(keys, Handled(s.ccs, relevant).Keys)
       && r == RebuildFrom(Flatten(ids, s.parents), ListsIn(keys, Handled(s.ccs, relevant)))
  }

  /** A rebuild that fails leaves the old allocator in place. */
  ghost predicate RebuildStep(s: State, relevant: set<string>, s': State) {
    && ReadyToRebuild(s, relevant)
    && exists r :: RebuildsTo(s, relevant, r) && s' == s.(ipam := if r.Some? then r.value else s.ipam)
  }

  /** The validator accepts no overlapping parents. */
  ghost predicate ParentsOk(parents: map<string, seq<Prefix>>) {
    forall p, q | IsParent(parents, p) && IsParent(parents, q) && p != q :: !Overlaps(p, q)
  }

  /** The configuration is replaced while the allocator stays as it is. */
  ghost predicate ChangeStep(s: State, parents: map<string, seq<Prefix>>, s': State) {
    ParentsOk(parents) && s' == s.(parents := parents)
  }

  /** What a restart leaves of a ClusterConfig whose cluster is gone: it has nothing to release
      in the empty allocator and loses the finalizer. */
  function Orphaned(ccs: ClusterConfigs): ClusterConfigs {
    map r | r in ccs && ccs[r].foreign :: ccs[r].(finalizer := false, deleting := true)
  }

  /** The ClusterConfigs once the orphans among them are handled. */
  function WithoutOrphans(s: State): map<string, ClusterConfigs> {
    map cl | cl in s.ccs :: if cl in s.clusters then s.ccs[cl] else Orphaned(s.ccs[cl])
  }

  /** A restart, possibly with another configuration.  A failed rebuild ends the process. */
  ghost predicate RestartStep(s: State, parents: map<string, seq<Prefix>>, relevant: set<string>, s': State) {
    && ParentsOk(parents) && ReadyToRebuild(s, relevant)
    && s' == State(parents, s'.ipam, s.clusters, WithoutOrphans(s))
    && RebuildsTo(s', relevant, Some(s'.ipam))
  }

  ghost predicate Next(conv: Conversion, s: State, step: Step, s': State) {
    match step
    case CreateCluster(cl) => CreateStep(s, cl, s')
    case DeleteCluster(cl) => DeleteStep(s, cl, s')
    case LoseAnnotation(cl) => LoseAnnotationStep(s, cl, s')
    case LoseConfig(o) => LoseConfigStep(s, o, s')
    case LosePatch(o, i) => LosePatchStep(s, o, i, s')
    case SetForeign(o) => SetForeignStep(s, o, s')
    case ClearForeign(o) => ClearForeignStep(s, o, s')
    case DeleteConfig(o) => DeleteConfigStep(s, o, s')
    case Reconcile(cl, rules) => ReconcileStep(s, cl, rules, conv, s')
    case ReconcilePartly(cl, rules) => ReconcilePartlyStep(s, cl, rules, conv, s')
    case ReleaseConfig(o, ok) => ReleaseStep(s, o, ok, s')
    case RepairCluster(cl) => RepairStep(s, cl, s')
    case RepairPartly(cl) => RepairPartlyStep(s, cl, s')
    case RebuildIpam(relevant) => RebuildStep(s, relevant, s')
    case ChangeConfig(parents) => ChangeStep(s, parents, s')
    case Restart(parents, relevant) => RestartStep(s, parents, relevant, s')
  }

  /** Something that happens to the objects on the platform cluster, not an action of the code. */
  predicate FromOutside(step: Step) {
    step.CreateCluster? || step.DeleteCluster? || step.LoseAnnotation? || step.LoseConfig? || step.LosePatch?
    || step.SetForeign? || step.ClearForeign? || step.DeleteConfig?
  }

  // ----- Which steps are safe -----

  /** All of them hold the finalizer. */
  predicate AllHeld(ccs: ClusterConfigs) {
    forall r | r in ccs :: ccs[r].finalizer
  }

  /** Clusters that match no rule are not repaired; nothing is lost of them. */
  ghost predicate UnmatchedCovered(s: State, relevant: set<string>) {
    forall cl | cl in s.clusters && cl !in relevant :: CoveredCluster(s, cl)
  }

  /** No held block is as large as a parent it overlaps. */
  ghost predicate ConfigFits(s: State, parents: map<string, seq<Prefix>>) {
    forall o, c, p | Holds(s, o, c) && IsParent(parents, p) && Overlaps(p, c) :: StrictlyCovers(p, c)
  }

  /** Parents that are registered already are so in their own right, not as a block acquired
      from another parent. */
  ghost predicate ParentsOnTop(s: State, parents: map<string, seq<Prefix>>) {
    forall p | IsParent(parents, p) && p in s.ipam :: s.ipam[p].None?
  }

  /** What a caller, or the outside world, has to see to.  A cluster is not created under a name
      that released ClusterConfigs are left of; what is released holds the finalizer, or nothing
      on its list is registered; a rebuild finds the unmatched clusters complete; a new
      configuration fits what is held. */
  ghost predicate SafeStep(s: State, step: Step) {
    match step
    case CreateCluster(cl) => AllHeld(ConfigsOf(s, cl))
    case ReleaseConfig(o, ok) =>
      HasConfig(s, o) ==> ConfigOf(s, o).finalizer || Listed(ConfigOf(s, o).patches) !! s.ipam.Keys
    case RebuildIpam(relevant) => UnmatchedCovered(s, relevant)
    case ChangeConfig(parents) => ConfigFits(s, parents) && ParentsOnTop(s, parents)
    case Restart(parents, relevant) => ConfigFits(s, parents) && UnmatchedCovered(s, relevant)
    case _ => true
  }

  // ----- Runs -----

  /** The first state: nothing recorded, the configured parents registered. */
  ghost predicate Init(s: State) {
    s.clusters == map[] && s.ccs == map[] && ParentsOk(s.parents) && RebuildsTo(s, {}, Some(s.ipam))
  }

  ghost function NextOf(conv: Conversion): (State, Step, State) -> bool {
    (s, step, s') => Next(conv, s, step, s')
  }

  ghost function SafeNextOf(conv: Conversion): (State, Step, State) -> bool {
    (s, step, s') => Next(conv, s, step, s') && SafeStep(s, step)
  }

  ghost predicate Follows(conv: Conversion, states: seq<State>, steps: seq<Step>) {
    Chain(NextOf(conv), states, steps)
  }

  ghost predicate SafelyFollows(conv: Conversion, states: seq<State>, steps: seq<Step>) {
    Chain(SafeNextOf(conv), states, steps)
  }

  ghost predicate Run(conv: Conversion, states: seq<State>, steps: seq<Step>) {
    Follows(conv, states, steps) && Init(states[0])
  }

  ghost predicate SafeRun(conv: Conversion, states: seq<State>, steps: seq<Step>) {
    SafelyFollows(conv, states, steps) && Init(states[0])
  }

  lemma SafelyFollowsIsFollows(conv: Conversion, states: seq<State>, steps: seq<Step>)
    requires SafelyFollows(conv, states, steps)
    ensures Follows(conv, states, steps)
  {
    ChainWeaken(SafeNextOf(conv), NextOf(conv), states, steps);
  }

  lemma StepOfRun(conv: Conversion, states: seq<State>, steps: seq<Step>, i: nat)
    requires Follows(conv, states, steps) && i < |steps|
    ensures |states| == |steps| + 1 && Next(conv, states[i], steps[i], states[i + 1])
  {
    assert NextOf(conv)(states[i], steps[i], states[i + 1]);
  }

  lemma StepOfSafe(conv: Conversion, states: seq<State>, steps: seq<Step>, i: nat)
    requires SafelyFollows(conv, states, steps) && i < |steps|
    ensures |states| == |steps| + 1 && Next(conv, states[i], steps[i], states[i + 1]) && SafeStep(states[i], steps[i])
  {
    assert SafeNextOf(conv)(states[i], steps[i], states[i + 1]);
  }
}
