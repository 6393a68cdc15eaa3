/** The controller's operations as sequences of steps: what is written, what is left, what makes
    the steps safe, and what makes an operation fail. */
module Operations {
  import opened Prefixes
  import opened Forest
  import opened GoIpam
  import opened Config
  import opened Chains
  import opened Patches
  import opened Repair
  import opened Release
  import opened Rebuild
  import opened RebuildTheorems
  import opened InjectionManagement
  import opened InjectionTheorems
  import opened System
  import opened SystemInvariant
  import opened ReconcileInvariant
  import opened SystemTheorems

  ghost predicate ReconcileFailed(ccs: ClusterConfigs, res: Option<Managed>) {
    res.None? || ResultFailed(ccs, res.value)
  }

  ghost predicate ResultFailed(ccs: ClusterConfigs, m: Managed) {
    m.work.failed || m.work.issues != {} || !AfterReconcile(ccs, m).1
  }

  /** What is written of the intended ClusterConfigs if those of some rules are refused. */
  function Written(was: ClusterConfigs, intended: ClusterConfigs, refused: set<RuleId>): (now: ClusterConfigs)
    ensures forall r :: ConfigIn(now, r) == if r in refused then ConfigIn(was, r) else ConfigIn(intended, r)
    ensures forall r :: PartOfConfigs(was, intended, now, r)
    ensures refused == {} ==> now == intended
  {
    map r | r in was.Keys + intended.Keys && (if r in refused then r in was else r in intended) ::
      if r in refused then was[r] else intended[r]
  }

  /** The state a reconcile is to lead to, once its result is written. */
  function ReconciledTo(s: State, cl: string, m: Managed): State {
    WithCluster(s, cl, m.work.annotation, AfterReconcile(ConfigsOf(s, cl), m).0)
  }

  ghost predicate WrittenUnless(s: State, intended: State, cl: string, annotated: bool, refused: set<RuleId>,
                                s': State) {
    && s'.clusters == (if annotated then intended.clusters else s.clusters)
    && ConfigsOf(s', cl) == Written(ConfigsOf(s, cl), ConfigsOf(intended, cl), refused)
  }

  lemma WrittenIsPart(s: State, intended: State, cl: string, annotated: bool, refused: set<RuleId>, s': State)
    requires cl in s.clusters && WrittenUnless(s, intended, cl, annotated, refused, s')
    requires OnlyDiffers(intended, cl, s')
    ensures PartlyWritten(s, intended, cl, s')
  {
  }

  /** But for the annotations and the ClusterConfigs of the cluster. */
  ghost predicate OnlyDiffers(s: State, cl: string, s': State) {
    s' == s.(clusters := s'.clusters, ccs := s.ccs[cl := ConfigsOf(s', cl)])
  }

  lemma WriteDone(s: State, cl: string, annotation: AppliedRules, after: ClusterConfigs, annotated: bool,
                  refused: set<RuleId>, s': State)
    requires cl in s.clusters
    requires s' == State(s.parents, s.ipam, if annotated then s.clusters[cl := annotation] else s.clusters,
                         s.ccs[cl := Written(ConfigsOf(s, cl), after, refused)])
    ensures var intended := WithCluster(s, cl, annotation, after);
      && OnlyDiffers(intended, cl, s') && WrittenUnless(s, intended, cl, annotated, refused, s')
      && (s' == intended <==> ConfigsOf(s', cl) == after && (annotated || s.clusters[cl] == annotation))
  {
    var intended := WithCluster(s, cl, annotation, after);
    assert ConfigsOf(s', cl) == s'.ccs[cl] && ConfigsOf(intended, cl) == intended.ccs[cl] == after;
    if !annotated && s.clusters[cl] == annotation {
      assert intended.clusters == s.clusters;
    }
  }

  predicate Exists(ccs: map<string, ClusterConfigs>, o: Owner) {
    o.cluster in ccs && o.rule in ccs[o.cluster]
  }

  function Find(ccs: map<string, ClusterConfigs>, o: Owner): Option<ClusterConfig> {
    if Exists(ccs, o) then Some(ccs[o.cluster][o.rule]) else None
  }

  /** The ClusterConfig is gone or does not hold the CIDR management finalizer. */
  predicate Unheld(ccs: map<string, ClusterConfigs>, o: Owner) {
    Exists(ccs, o) ==> !ccs[o.cluster][o.rule].finalizer
  }

  /** Apart from the ones named, they are in deletion and wait for other controllers only. */
  ghost predicate LeftToOthers(ccs: ClusterConfigs, but: set<RuleId>) {
    forall r | r in ccs && r !in but :: !ccs[r].finalizer && ccs[r].foreign && ccs[r].deleting
  }

  ghost predicate HeldAmong(ccs: ClusterConfigs, rules: set<RuleId>) {
    forall r | r in rules && r in ccs :: ccs[r].finalizer
  }

  /** One ClusterConfig is gone, or in deletion and, if released, without the finalizer; the
      others are as they were. */
  ghost predicate OneReleased(was: ClusterConfigs, now: ClusterConfigs, r: RuleId, ok: bool) {
    && now.Keys - {r} == was.Keys - {r} && r in was && (forall q | q in now && q != r :: q in was && now[q] == was[q])
    && (r in now && ok ==> !now[r].finalizer && now[r].foreign && now[r].deleting)
  }

  lemma OneLess(was: ClusterConfigs, now: ClusterConfigs, r: RuleId, todo: set<RuleId>, ok: bool)
    requires OneReleased(was, now, r, ok) && r in todo && todo <= was.Keys
    ensures todo - {r} <= now.Keys
    ensures HeldAmong(was, todo) ==> HeldAmong(now, todo - {r})
    ensures ok && LeftToOthers(was, todo) ==> LeftToOthers(now, todo - {r})
  {
    forall q | q in todo - {r}
      ensures q in now
    {
      assert q in was.Keys - {r};
    }
  }

  /** What the handling of orphans leaves of a ClusterConfig whose cluster is gone. */
  function AfterOrphan(cc: ClusterConfig): Option<ClusterConfig> {
    if cc.foreign then Some(cc.(finalizer := false, deleting := true)) else None
  }

  function OrphanIn(ccs: map<string, ClusterConfigs>, o: Owner): Option<ClusterConfig> {
    if Exists(ccs, o) then AfterOrphan(Find(ccs, o).value) else None
  }

  /** One safe step, after which that orphan is gone or left to others, and nothing else changed. */
  ghost predicate OrphanDone(conv: Conversion, s: State, o: Owner, ok: bool, step: Step, t: State) {
    && SafeNext(conv, s, step, t) && OthersKept(o, s.ccs, t.ccs) && KeptFor(s.clusters.Keys, s.ccs, t.ccs)
    && t.clusters == s.clusters && (ok ==> Find(t.ccs, o) == OrphanIn(s.ccs, o))
  }

  lemma OrphanReleased(conv: Conversion, s: State, o: Owner, ok: bool, t: State)
    requires ReleaseStep(s, o, ok, t) && ConfigOf(s, o).finalizer
    ensures OrphanDone(conv, s, o, ok, ReleaseConfig(o, ok), t)
  {
    OnlyOne(s, o, AfterDelete(if ok then ConfigOf(s, o).(finalizer := false) else ConfigOf(s, o)), t);
  }

  lemma OrphanDeleted(conv: Conversion, s: State, o: Owner, t: State)
    requires DeleteConfigStep(s, o, t) && o.cluster !in s.clusters && !ConfigOf(s, o).finalizer
    ensures OrphanDone(conv, s, o, true, DeleteConfig(o), t)
  {
    OnlyOne(s, o, AfterDelete(ConfigOf(s, o)), t);
  }

  lemma OnlyOne(s: State, o: Owner, now: Option<ClusterConfig>, t: State)
    requires HasConfig(s, o) && o.cluster !in s.clusters && t.ccs == WithConfig(s, o, now).ccs
    ensures Find(t.ccs, o) == now && OthersKept(o, s.ccs, t.ccs) && KeptFor(s.clusters.Keys, s.ccs, t.ccs)
  {
  }

  /** Of the owners before i, those that remain still have a ClusterConfig, and without a failure
      those whose cluster is gone are handled; the others are still to come. */
  ghost predicate HandledUpTo(owners: seq<Owner>, i: nat, remaining: seq<Owner>, failed: bool, clusters: set<string>,
                              was: map<string, ClusterConfigs>, now: map<string, ClusterConfigs>)
    requires i <= |owners|
  {
    && (forall k | i <= k < |owners| :: Find(now, owners[k]) == Find(was, owners[k]))
    && (forall k | 0 <= k < i :: owners[k] in remaining <==> Exists(now, owners[k]))
    && (forall o | o in remaining :: o in owners[..i])
    && (!failed ==> forall k | 0 <= k < i && owners[k].cluster !in clusters ::
          Find(now, owners[k]) == OrphanIn(was, owners[k]))
  }

  lemma OneMoreHandled(owners: seq<Owner>, i: nat, before: seq<Owner>, remaining: seq<Owner>, failed: bool, ok: bool,
                       clusters: set<string>, start: map<string, ClusterConfigs>, was: map<string, ClusterConfigs>,
                       now: map<string, ClusterConfigs>)
    requires NoDuplicates(owners) && i < |owners|
    requires HandledUpTo(owners, i, before, failed, clusters, start, was) && OthersKept(owners[i], was, now)
    requires ok && owners[i].cluster !in clusters ==> Find(now, owners[i]) == OrphanIn(was, owners[i])
    requires remaining == if Exists(now, owners[i]) then before + [owners[i]] else before
    ensures HandledUpTo(owners, i + 1, remaining, failed || !ok, clusters, start, now)
  {
    assert owners[..i + 1] == owners[..i] + [owners[i]];
    assert Find(was, owners[i]) == Find(start, owners[i]);
    forall k | 0 <= k < |owners| && k != i
      ensures Find(now, owners[k]) == Find(was, owners[k])
      ensures Exists(now, owners[k]) <==> Exists(was, owners[k])
    {
      assert owners[k] != owners[i];
    }
  }

  ghost predicate OthersKept(o: Owner, was: map<string, ClusterConfigs>, now: map<string, ClusterConfigs>) {
    now.Keys == was.Keys && forall o' | o' != o :: Find(now, o') == Find(was, o')
  }

  /** The ClusterConfigs of these clusters are as before. */
  ghost predicate KeptFor(clusters: set<string>, was: map<string, ClusterConfigs>, now: map<string, ClusterConfigs>) {
    forall cl | cl in clusters :: (cl in was <==> cl in now) && (cl in was ==> was[cl] == now[cl])
  }

  /** What repairs and the handling of orphans leave for a rebuild to start from. */
  ghost predicate Prepared(s: State, t: State, relevant: set<string>) {
    && t.parents == s.parents && t.clusters == s.clusters
    && (forall cl | cl in relevant :: RepairedCluster(t, cl))
    && (forall cl | cl in s.clusters && cl !in relevant :: ConfigsOf(t, cl) == ConfigsOf(s, cl))
  }

  lemma KeptMeans(s0: State, s1: State, s2: State, relevant: set<string>)
    requires s0.parents == s1.parents == s2.parents && s0.clusters == s1.clusters == s2.clusters
    requires relevant <= s0.clusters.Keys && forall cl | cl in relevant :: RepairedCluster(s1, cl)
    requires KeptFor(s0.clusters.Keys - relevant, s0.ccs, s1.ccs) && KeptFor(s1.clusters.Keys, s1.ccs, s2.ccs)
    ensures Prepared(s0, s2, relevant)
  {
    forall cl | cl in s0.clusters
      ensures if cl in relevant then RepairedCluster(s2, cl) else ConfigsOf(s2, cl) == ConfigsOf(s0, cl)
    {
      assert ConfigsOf(s2, cl) == ConfigsOf(s1, cl);
      assert cl in relevant ==> RepairedCluster(s1, cl);
    }
  }

  /** Repairs come first; what follows changes only ClusterConfigs whose cluster is gone. */
  ghost predicate RepairedFirst(s: State, states: seq<State>, steps: seq<Step>, repairs: nat, relevant: set<string>,
                                t: State) {
    && repairs <= |steps| < |states| && OnlyRepairs(steps[..repairs])
    && Prepared(s, states[repairs], relevant) && t.ccs == WithoutOrphans(states[repairs])
  }

  lemma FirstStays(s: State, states: seq<State>, steps: seq<Step>, repairs: nat, relevant: set<string>, was: State,
                   t: State, step: Step)
    requires RepairedFirst(s, states, steps, repairs, relevant, was) && |states| == |steps| + 1 && t.ccs == was.ccs
    ensures RepairedFirst(s, states + [t], steps + [step], repairs, relevant, t)
  {
    assert (steps + [step])[..repairs] == steps[..repairs] && (states + [t])[repairs] == states[repairs];
  }

  /** If all whose cluster is gone were handled, what is left is what a restart leaves. */
  lemma OrphansHandled(s: State, t: State, relevant: set<string>)
    requires t.clusters == s.clusters && relevant <= s.clusters.Keys
    requires t.ccs.Keys == s.ccs.Keys && KeptFor(s.clusters.Keys, s.ccs, t.ccs)
    requires forall o: Owner | o.cluster !in s.clusters :: Find(t.ccs, o) == OrphanIn(s.ccs, o)
    ensures t.ccs == WithoutOrphans(s)
  {
    forall cl | cl in s.ccs
      ensures t.ccs[cl] == WithoutOrphans(s)[cl]
    {
      if cl !in s.clusters {
        OrphansOf(s, t, cl);
      }
    }
  }

  lemma OrphansOf(s: State, t: State, cl: string)
    requires cl in s.ccs && cl in t.ccs
    requires forall r :: Find(t.ccs, Owner(cl, r)) == OrphanIn(s.ccs, Owner(cl, r))
    ensures t.ccs[cl] == Orphaned(s.ccs[cl])
  {
    forall r
      ensures ConfigIn(t.ccs[cl], r) == ConfigIn(Orphaned(s.ccs[cl]), r)
    {
      assert Find(t.ccs, Owner(cl, r)) == ConfigIn(t.ccs[cl], r);
    }
    SameConfigs(t.ccs[cl], Orphaned(s.ccs[cl]));
  }

  lemma SameConfigs(ccs: ClusterConfigs, ccs': ClusterConfigs)
    requires forall r :: ConfigIn(ccs, r) == ConfigIn(ccs', r)
    ensures ccs == ccs'
  {
    forall r
      ensures r in ccs <==> r in ccs'
      ensures r in ccs ==> ccs[r] == ccs'[r]
    {
      assert ConfigIn(ccs, r) == ConfigIn(ccs', r);
    }
  }

  /** Only listed ClusterConfigs whose cluster is gone have changed. */
  ghost predicate OnlyOrphans(owners: seq<Owner>, clusters: set<string>, was: map<string, ClusterConfigs>,
                              now: map<string, ClusterConfigs>) {
    && now.Keys == was.Keys && KeptFor(clusters, was, now)
    && forall o | o !in owners :: Find(now, o) == Find(was, o)
  }

  lemma OneMoreOrphan(owners: seq<Owner>, o: Owner, clusters: set<string>, start: map<string, ClusterConfigs>,
                      was: map<string, ClusterConfigs>, now: map<string, ClusterConfigs>)
    requires OnlyOrphans(owners, clusters, start, was) && o in owners && OthersKept(o, was, now)
    requires KeptFor(clusters, was, now)
    ensures OnlyOrphans(owners, clusters, start, now)
  {
    forall o' | o' !in owners
      ensures Find(now, o') == Find(start, o')
    {
      assert o' != o;
    }
  }

  /** The repair, or a part of it. */
  ghost predicate RepairedTo(s: State, cl: string, ok: bool, t: State) {
    if ok then RepairStep(s, cl, t) && RepairedCluster(t, cl) else RepairPartlyStep(s, cl, t)
  }

  lemma RepairOutcome(s: State, cl: string, ins: Instruction, written: ClusterConfigs, t: State)
    requires cl in s.clusters && CheckSpec(s.clusters[cl], ConfigsOf(s, cl), ins)
    requires t == s.(ccs := s.ccs[cl := written])
    requires forall r :: PartOfConfigs(ConfigsOf(s, cl), Apply(ConfigsOf(s, cl), ins), written, r)
    ensures RepairedTo(s, cl, written == Apply(ConfigsOf(s, cl), ins), t)
  {
    RepairDone(s, cl, ins);
    RepairWritten(s, cl, Apply(ConfigsOf(s, cl), ins), written, t);
  }

  lemma RepairWritten(s: State, cl: string, after: ClusterConfigs, written: ClusterConfigs, s': State)
    requires cl in s.clusters && s' == s.(ccs := s.ccs[cl := written])
    requires RepairStep(s, cl, s.(ccs := s.ccs[cl := after]))
    requires forall r :: PartOfConfigs(ConfigsOf(s, cl), after, written, r)
    ensures RepairPartlyStep(s, cl, s')
  {
    PartOfRepair(s, cl, after, written, s');
  }

  lemma PartOfRepair(s: State, cl: string, after: ClusterConfigs, written: ClusterConfigs, s': State)
    requires cl in s.clusters && s' == s.(ccs := s.ccs[cl := written])
    requires forall r :: PartOfConfigs(ConfigsOf(s, cl), after, written, r)
    ensures PartlyWritten(s, s.(ccs := s.ccs[cl := after]), cl, s')
  {
    var intended := s.(ccs := s.ccs[cl := after]);
    assert ConfigsOf(s', cl) == written && ConfigsOf(intended, cl) == after;
    assert s'.ccs == intended.ccs[cl := written];
  }

  lemma RepairDone(s: State, cl: string, ins: Instruction)
    requires cl in s.clusters && CheckSpec(s.clusters[cl], ConfigsOf(s, cl), ins)
    ensures RepairStep(s, cl, s.(ccs := s.ccs[cl := Apply(ConfigsOf(s, cl), ins)]))
    ensures RepairedCluster(s.(ccs := s.ccs[cl := Apply(ConfigsOf(s, cl), ins)]), cl)
  {
    RepairLeavesNothing(s, cl, ins);
  }

  lemma RepairLeavesNothing(s: State, cl: string, ins: Instruction)
    requires cl in s.clusters && CheckSpec(s.clusters[cl], ConfigsOf(s, cl), ins)
    ensures RepairedCluster(s.(ccs := s.ccs[cl := Apply(ConfigsOf(s, cl), ins)]), cl)
  {
    var after := Apply(ConfigsOf(s, cl), ins);
    forall r
      ensures !NeedsCreate(s.clusters[cl], after, r) && !NeedsUpdate(s.clusters[cl], after, r)
    {
      NothingLeft(s.clusters[cl], ConfigsOf(s, cl), ins, r);
    }
  }

  /** Safe steps lead from one state to the other. */
  ghost predicate Ran(conv: Conversion, s: State, states: seq<State>, steps: seq<Step>, t: State) {
    SafelyFollows(conv, states, steps) && states[0] == s && states[|steps|] == t
  }

  ghost predicate SafeNext(conv: Conversion, s: State, step: Step, t: State) {
    Next(conv, s, step, t) && SafeStep(s, step)
  }

  lemma RanOneMore(conv: Conversion, s: State, states: seq<State>, steps: seq<Step>, was: State, step: Step, t: State)
    requires Ran(conv, s, states, steps, was) && SafeNext(conv, was, step, t)
    ensures Ran(conv, s, states + [t], steps + [step], t)
  {
    ChainOneMore(SafeNextOf(conv), states, steps, step, t);
  }

  lemma RanOn(conv: Conversion, s: State, states: seq<State>, steps: seq<Step>, was: State, more: seq<State>,
              moreSteps: seq<Step>, t: State)
    requires Ran(conv, s, states, steps, was) && Ran(conv, was, more, moreSteps, t)
    ensures Ran(conv, s, states + more[1..], steps + moreSteps, t)
  {
    ChainConcat(SafeNextOf(conv), states, steps, more, moreSteps);
  }

  /** Steps, safe ones if so said, lead from one state to the other. */
  ghost predicate Went(conv: Conversion, safe: bool, s: State, states: seq<State>, steps: seq<Step>, t: State) {
    && Follows(conv, states, steps) && states[0] == s && states[|steps|] == t
    && (safe ==> SafelyFollows(conv, states, steps))
  }

  lemma WentOneMore(conv: Conversion, safe: bool, s: State, states: seq<State>, steps: seq<Step>, was: State,
                    step: Step,
                    t: State)
    requires Went(conv, safe, s, states, steps, was) && Next(conv, was, step, t) && (safe ==> SafeStep(was, step))
    ensures Went(conv, safe, s, states + [t], steps + [step], t)
  {
    ChainOneMore(NextOf(conv), states, steps, step, t);
    if safe {
      ChainOneMore(SafeNextOf(conv), states, steps, step, t);
    }
  }

  lemma NothingYet(conv: Conversion, s: State)
    ensures Ran(conv, s, [s], [], s) && Went(conv, true, s, [s], [], s)
  {
  }

  predicate OnlyRepairs(steps: seq<Step>) {
    forall i | 0 <= i < |steps| :: steps[i].RepairCluster? || steps[i].RepairPartly?
  }

  lemma RanRepair(conv: Conversion, s: State, states: seq<State>, steps: seq<Step>, was: State, cl: string, ok: bool,
                  t: State)
    requires Ran(conv, s, states, steps, was) && RepairedTo(was, cl, ok, t)
    ensures Ran(conv, s, states + [t], steps + [if ok then RepairCluster(cl) else RepairPartly(cl)], t)
  {
    var step := if ok then RepairCluster(cl) else RepairPartly(cl);
    assert SafeNext(conv, was, step, t);
    RanOneMore(conv, s, states, steps, was, step, t);
  }

  lemma OneMoreRelease(conv: Conversion, held: bool, s: State, states: seq<State>, steps: seq<Step>, was: State,
                       o: Owner, ok: bool, t: State)
    requires Went(conv, held, s, states, steps, was) && ReleaseStep(was, o, ok, t)
    requires held ==> ConfigOf(was, o).finalizer
    ensures Went(conv, held, s, states + [t], steps + [ReleaseConfig(o, ok)], t)
  {
    WentOneMore(conv, held, s, states, steps, was, ReleaseConfig(o, ok), t);
  }

  lemma RebuiltIsPrepared(s: State, t: State, relevant: set<string>, t': State)
    requires Prepared(s, t, relevant) && RebuildStep(t, relevant, t')
    ensures Prepared(s, t', relevant)
  {
    forall cl
      ensures ConfigsOf(t', cl) == ConfigsOf(t, cl)
    {
    }
  }

  lemma RestoreDone(conv: Conversion, s: State, states: seq<State>, steps: seq<Step>, relevant: set<string>, was: State,
                    t: State, failed: bool)
    requires Ran(conv, s, states, steps, was) && relevant <= s.clusters.Keys
    requires Prepared(s, was, relevant) && RebuildsTo(was, relevant, if failed then None else Some(t.ipam))
    requires if failed then t == was else t == was.(ipam := t.ipam)
    ensures Went(conv, UnmatchedCovered(s, relevant), s, states + [t], steps + [RebuildIpam(relevant)], t)
    ensures forall cl | cl in relevant :: RepairedCluster(t, cl)
    ensures !failed && Inv(s) ==> (HeldRegistered(t) <==> UnmatchedCovered(s, relevant))
  {
    assert RebuildStep(was, relevant, t);
    RestoreSteps(conv, s, states, steps, relevant, was, t);
    RebuiltIsPrepared(s, was, relevant, t);
    if !failed && Inv(s) {
      RestoredCoverage(conv, s, states, steps, relevant, was, t);
    }
  }

  lemma RestoredCoverage(conv: Conversion, s: State, states: seq<State>, steps: seq<Step>, relevant: set<string>,
                         was: State, t: State)
    requires Ran(conv, s, states, steps, was) && Inv(s) && relevant <= s.clusters.Keys
    requires Prepared(s, was, relevant) && RebuildsTo(was, relevant, Some(t.ipam)) && t == was.(ipam := t.ipam)
    ensures HeldRegistered(t) <==> UnmatchedCovered(s, relevant)
  {
    FollowsInv(conv, states, steps, |steps|);
    RestoreCoverage(s, was, relevant, t.ipam);
  }

  lemma OthersStayRepaired(s: State, s': State, cl: string, others: set<string>)
    requires s'.clusters == s.clusters && cl !in others && forall c | c in others :: RepairedCluster(s, c)
    requires forall c | c != cl :: (c in s'.ccs <==> c in s.ccs) && (c in s'.ccs ==> s'.ccs[c] == s.ccs[c])
    ensures forall c | c in others :: RepairedCluster(s', c)
  {
    forall c | c in others
      ensures RepairedCluster(s', c)
    {
      assert RepairedCluster(s, c) && ConfigsOf(s', c) == ConfigsOf(s, c);
    }
  }

  /** A change of the configuration, and the steps that follow on it. */
  lemma AfterChange(conv: Conversion, s: State, parents: map<string, seq<Prefix>>, was: State, safe: bool,
                    more: seq<State>, moreSteps: seq<Step>, t: State)
      returns (states: seq<State>, steps: seq<Step>)
    requires Went(conv, safe, was, more, moreSteps, t) && ChangeStep(s, parents, was)
    ensures Went(conv, SafeStep(s, ChangeConfig(parents)) && safe, s, states, steps, t)
    ensures |steps| == |moreSteps| + 1 && steps[0] == ChangeConfig(parents) && steps[1..] == moreSteps
    ensures states[1..] == more
  {
    var first, step := [s, was], ChangeConfig(parents);
    FirstStep(conv, s, step, was);
    ChainConcat(NextOf(conv), first, [step], more, moreSteps);
    if SafeStep(s, step) && safe {
      ChainConcat(SafeNextOf(conv), first, [step], more, moreSteps);
    }
    states, steps := first + more[1..], [step] + moreSteps;
  }

  lemma ChangedSame(s: State, parents: map<string, seq<Prefix>>, s': State, relevant: set<string>)
    requires ChangeStep(s, parents, s')
    ensures UnmatchedCovered(s', relevant) <==> UnmatchedCovered(s, relevant)
    ensures Inv(s) && SafeStep(s, ChangeConfig(parents)) ==> Inv(s')
  {
    UnmatchedKept(s, s', relevant);
    if Inv(s) && SafeStep(s, ChangeConfig(parents)) {
      ChangeInv(s, parents, s');
    }
  }

  lemma FirstStep(conv: Conversion, s: State, step: Step, s': State)
    requires Next(conv, s, step, s')
    ensures Follows(conv, [s, s'], [step])
    ensures SafeStep(s, step) ==> SafelyFollows(conv, [s, s'], [step])
  {
  }

  /** The rebuild at the end of a restore is safe if nothing was lost of the unmatched clusters. */
  lemma RestoreSteps(conv: Conversion, s: State, states: seq<State>, steps: seq<Step>, relevant: set<string>,
                     was: State, t: State)
    requires Ran(conv, s, states, steps, was) && Prepared(s, was, relevant) && RebuildStep(was, relevant, t)
    ensures Went(conv, UnmatchedCovered(s, relevant), s, states + [t], steps + [RebuildIpam(relevant)], t)
  {
    UnmatchedKept(s, was, relevant);
    SafelyFollowsIsFollows(conv, states, steps);
    WentOneMore(conv, UnmatchedCovered(s, relevant), s, states, steps, was, RebuildIpam(relevant), t);
  }

  // ----- A new process -----

  /** Repairs of the state the last process has left, and then a restart. */
  ghost predicate Restarted(conv: Conversion, before: State, states: seq<State>, steps: seq<Step>,
                            parents: map<string, seq<Prefix>>, relevant: set<string>, t: State) {
    && Went(conv, false, before, states, steps, t)
    && steps != [] && steps[|steps| - 1] == Restart(parents, relevant) && OnlyRepairs(steps[..|steps| - 1])
  }

  /** The state with the allocator and the configuration of another one. */
  function Under(s: State, before: State): State {
    s.(parents := before.parents, ipam := before.ipam)
  }

  lemma RepairUnder(conv: Conversion, s: State, step: Step, s': State, before: State)
    requires Next(conv, s, step, s') && (step.RepairCluster? || step.RepairPartly?)
    ensures SafeNext(conv, Under(s, before), step, Under(s', before))
  {
    match step
    case RepairCluster(cl) => RepairStepUnder(s, cl, s', before);
    case RepairPartly(cl) => RepairPartlyUnder(s, cl, s', before);
  }

  lemma RepairPartlyUnder(s: State, cl: string, s': State, before: State)
    requires RepairPartlyStep(s, cl, s')
    ensures RepairPartlyStep(Under(s, before), cl, Under(s', before))
  {
    var intended :| RepairStep(s, cl, intended) && PartlyWritten(s, intended, cl, s');
    RepairStepUnder(s, cl, intended, before);
    PartUnder(s, intended, cl, s', before);
  }

  lemma PartUnder(s: State, intended: State, cl: string, s': State, before: State)
    requires PartlyWritten(s, intended, cl, s')
    ensures PartlyWritten(Under(s, before), Under(intended, before), cl, Under(s', before))
  {
    SameConfigsUnder(s, cl, before);
    SameConfigsUnder(intended, cl, before);
    SameConfigsUnder(s', cl, before);
  }

  lemma SameConfigsUnder(s: State, cl: string, before: State)
    ensures ConfigsOf(Under(s, before), cl) == ConfigsOf(s, cl)
  {
  }

  lemma RepairStepUnder(s: State, cl: string, s': State, before: State)
    requires RepairStep(s, cl, s')
    ensures RepairStep(Under(s, before), cl, Under(s', before))
  {
    var ins := InstructionOf(s, cl, s');
    SameConfigsUnder(s, cl, before);
    RepairsBy(Under(s, before), cl, ins, Under(s', before));
  }

  lemma RepairsBy(s: State, cl: string, ins: Instruction, s': State)
    requires cl in s.clusters && CheckSpec(s.clusters[cl], ConfigsOf(s, cl), ins)
    requires s' == s.(ccs := s.ccs[cl := Apply(ConfigsOf(s, cl), ins)])
    ensures RepairStep(s, cl, s')
  {
  }

  lemma InstructionOf(s: State, cl: string, s': State) returns (ins: Instruction)
    requires RepairStep(s, cl, s')
    ensures CheckSpec(s.clusters[cl], ConfigsOf(s, cl), ins)
    ensures s' == s.(ccs := s.ccs[cl := Apply(ConfigsOf(s, cl), ins)])
  {
    ins :| CheckSpec(s.clusters[cl], ConfigsOf(s, cl), ins)
      && s' == s.(ccs := s.ccs[cl := Apply(ConfigsOf(s, cl), ins)]);
  }

  /** The repairs do the same whatever the allocator. */
  lemma {:induction false} RepairsUnder(conv: Conversion, states: seq<State>, steps: seq<Step>, n: nat, before: State)
      returns (states': seq<State>, steps': seq<Step>)
    requires Follows(conv, states, steps) && n <= |steps| && OnlyRepairs(steps[..n])
    requires Under(states[0], before) == before
    ensures Ran(conv, before, states', steps', Under(states[n], before)) && OnlyRepairs(steps')
  {
    if n == 0 {
      states', steps' := [before], [];
      NothingYet(conv, before);
    } else {
      assert steps[..n][n - 1] == steps[n - 1] && steps[..n - 1] == steps[..n][..n - 1];
      states', steps' := RepairsUnder(conv, states, steps, n - 1, before);
      StepOfRun(conv, states, steps, n - 1);
      RepairUnder(conv, states[n - 1], steps[n - 1], states[n], before);
      var was := Under(states[n - 1], before);
      RanOneMore(conv, before, states', steps', was, steps[n - 1], Under(states[n], before));
      states', steps' := states' + [Under(states[n], before)], steps' + [steps[n - 1]];
    }
  }

  lemma RestartsFrom(conv: Conversion, s: State, states: seq<State>, steps: seq<Step>, repairs: nat,
                     parents: map<string, seq<Prefix>>, relevant: set<string>, t: State, before: State)
      returns (states': seq<State>, steps': seq<Step>)
    requires Went(conv, UnmatchedCovered(s, relevant), s, states, steps, t)
    requires RepairedFirst(s, states, steps, repairs, relevant, t) && Under(s, before) == before
    requires ParentsOk(parents) && t.parents == parents && t.clusters == s.clusters
    requires RebuildsTo(t, relevant, Some(t.ipam))
    ensures Restarted(conv, before, states', steps', parents, relevant, t)
    ensures Inv(before) && ConfigFits(before, parents) && UnmatchedCovered(before, relevant) ==>
      SafelyFollows(conv, states', steps') && Inv(t) && HeldRegistered(t)
  {
    var mid, step := Under(states[repairs], before), Restart(parents, relevant);
    states', steps' := RepairsUnder(conv, states, steps, repairs, before);
    RestartAfterRepairs(s, states[repairs], relevant, parents, t, before);
    if Inv(before) && ConfigFits(before, parents) && UnmatchedCovered(before, relevant) {
      SafeRestart(conv, before, states', steps', mid, parents, relevant);
      RestartInv(mid, parents, relevant, t);
      InvMeansSafe(t);
      assert SafeNext(conv, mid, step, t);
      RanOneMore(conv, before, states', steps', mid, step, t);
    }
    SafelyFollowsIsFollows(conv, states', steps');
    WentOneMore(conv, false, before, states', steps', mid, step, t);
    assert (steps' + [step])[..|steps'|] == steps';
    states', steps' := states' + [t], steps' + [step];
  }

  lemma RestartAfterRepairs(s: State, repaired: State, relevant: set<string>, parents: map<string, seq<Prefix>>,
                            t: State, before: State)
    requires Prepared(s, repaired, relevant) && t.ccs == WithoutOrphans(repaired) && t.clusters == s.clusters
    requires ParentsOk(parents) && t.parents == parents && RebuildsTo(t, relevant, Some(t.ipam))
    requires Under(s, before) == before
    ensures RestartStep(Under(repaired, before), parents, relevant, t)
    ensures UnmatchedCovered(Under(repaired, before), relevant) <==> UnmatchedCovered(before, relevant)
  {
    var mid := Under(repaired, before);
    forall cl
      ensures ConfigsOf(mid, cl) == ConfigsOf(repaired, cl) && ConfigsOf(before, cl) == ConfigsOf(s, cl)
    {
      SameConfigsUnder(repaired, cl, before);
      SameConfigsUnder(s, cl, before);
    }
    UnmatchedKept(before, mid, relevant);
    ReadyUnder(repaired, relevant, before);
  }

  lemma ReadyUnder(s: State, relevant: set<string>, before: State)
    requires forall cl | cl in relevant :: RepairedCluster(s, cl)
    ensures ReadyToRebuild(Under(s, before), relevant)
  {
    forall cl | cl in relevant
      ensures RepairedCluster(Under(s, before), cl)
    {
      assert RepairedCluster(s, cl);
      SameConfigsUnder(s, cl, before);
    }
  }

  lemma SafeRestart(conv: Conversion, before: State, states: seq<State>, steps: seq<Step>, mid: State,
                    parents: map<string, seq<Prefix>>, relevant: set<string>)
    requires Ran(conv, before, states, steps, mid) && OnlyRepairs(steps)
    requires Inv(before) && ConfigFits(before, parents) && UnmatchedCovered(mid, relevant)
    ensures Inv(mid) && SafeStep(mid, Restart(parents, relevant))
  {
    FollowsInv(conv, states, steps, |steps|);
    RepairsHoldNoMore(conv, states, steps, |steps|);
  }

  lemma {:induction false} RepairsHoldNoMore(conv: Conversion, states: seq<State>, steps: seq<Step>, i: nat)
    requires SafelyFollows(conv, states, steps) && OnlyRepairs(steps) && Inv(states[0]) && i <= |steps|
    ensures HoldsNoMore(states[0], states[i])
  {
    if i > 0 {
      RepairsHoldNoMore(conv, states, steps, i - 1);
      OneOfRepairs(conv, states, steps, i - 1);
    }
  }

  lemma OneOfRepairs(conv: Conversion, states: seq<State>, steps: seq<Step>, i: nat)
    requires SafelyFollows(conv, states, steps) && OnlyRepairs(steps) && Inv(states[0]) && i < |steps|
    ensures HoldsNoMore(states[i], states[i + 1])
  {
    StepOfSafe(conv, states, steps, i);
    FollowsInv(conv, states, steps, i);
    RepairHoldsNoMore(conv, states[i], steps[i], states[i + 1]);
  }

  lemma RepairHoldsNoMore(conv: Conversion, s: State, step: Step, s': State)
    requires Inv(s) && Next(conv, s, step, s') && (step.RepairCluster? || step.RepairPartly?)
    ensures HoldsNoMore(s, s')
  {
    match step
    case RepairCluster(cl) => WholeRepairHoldsNoMore(s, cl, s');
    case RepairPartly(cl) =>
      var intended :| RepairStep(s, cl, intended) && PartlyWritten(s, intended, cl, s');
      WholeRepairHoldsNoMore(s, cl, intended);
      RepairInv(s, cl, intended);
      RepairAddsTo(s, cl, intended);
      PartHoldsNoMore(s, cl, intended, s');
  }

  lemma WholeRepairHoldsNoMore(s: State, cl: string, s': State)
    requires Inv(s) && RepairStep(s, cl, s')
    ensures HoldsNoMore(s, s')
  {
    var ins := InstructionOf(s, cl, s');
    RepairedHoldsNoMore(s, cl, ins, s');
  }
}
