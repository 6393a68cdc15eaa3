/** Theorems about every run of the state machine. */
module SystemTheorems {
  import opened Prefixes
  import opened Forest
  import opened GoIpam
  import opened Chains
  import opened Config
  import opened Patches
  import opened Repair
  import opened Release
  import opened Rebuild
  import opened RebuildTheorems
  import opened InjectionManagement
  import opened InjectionTheorems
  import opened System
  import opened SystemInvariant
  import opened ReconcileInvariant

  // ----- The invariant holds in every safe run -----

  lemma InitInv(s: State)
    requires Init(s)
    ensures Inv(s)
  {
    NothingHeld(s);
    RebuiltForest(s, {}, Some(s.ipam));
    FreshAllocatorInv(s, s.ipam);
    assert s.(ipam := s.ipam) == s;
  }

  lemma NothingHeld(s: State)
    requires s.clusters == map[] && s.ccs == map[]
    ensures DataOk(s) && PlacedOk(s) && OwnersDisjoint(s) && Covered(s)
  {
    assert forall o, c :: !Holds(s, o, c);
  }

  lemma NextInv(conv: Conversion, s: State, step: Step, s': State)
    requires Inv(s) && Next(conv, s, step, s') && SafeStep(s, step)
    ensures Inv(s')
  {
    if FromOutside(step) {
      OutsideInv(conv, s, step, s');
    } else {
      CodeInv(conv, s, step, s');
    }
  }

  lemma OutsideInv(conv: Conversion, s: State, step: Step, s': State)
    requires Inv(s) && Next(conv, s, step, s') && SafeStep(s, step) && FromOutside(step)
    ensures Inv(s')
  {
    match step
    case CreateCluster(cl) => CreateInv(s, cl, s');
    case DeleteCluster(cl) => RecordLostInv(s, cl, s');
    case LoseAnnotation(cl) => RecordLostInv(s, cl, s');
    case LoseConfig(o) => MetadataInv(s, o, s');
    case LosePatch(o, i) => LosePatchInv(s, o, i, s');
    case SetForeign(o) => MetadataInv(s, o, s');
    case ClearForeign(o) => MetadataInv(s, o, s');
    case DeleteConfig(o) => MetadataInv(s, o, s');
  }

  lemma CodeInv(conv: Conversion, s: State, step: Step, s': State)
    requires Inv(s) && Next(conv, s, step, s') && SafeStep(s, step) && !FromOutside(step)
    ensures Inv(s')
  {
    match step
    case Reconcile(cl, rules) => ReconcileInv(s, cl, rules, conv, s');
    case ReconcilePartly(cl, rules) => ReconcilePartlyInv(s, cl, rules, conv, s');
    case ReleaseConfig(o, ok) => ReleaseInv(s, o, ok, s');
    case RepairCluster(cl) => RepairInv(s, cl, s');
    case RepairPartly(cl) => RepairPartlyInv(s, cl, s');
    case RebuildIpam(relevant) => RebuildInv(s, relevant, s');
    case ChangeConfig(parents) => ChangeInv(s, parents, s');
    case Restart(parents, relevant) => RestartInv(s, parents, relevant, s');
  }

  /** Any sequence of safe steps, such as an operation of the controller, keeps the invariant. */
  lemma FollowsInv(conv: Conversion, states: seq<State>, steps: seq<Step>, i: nat)
    requires SafelyFollows(conv, states, steps) && Inv(states[0]) && i < |states|
    ensures Inv(states[i])
  {
    forall s, step, s' | Inv(s) && SafeNextOf(conv)(s, step, s')
      ensures Inv(s')
    {
      NextInv(conv, s, step, s');
    }
    ChainKeeps(SafeNextOf(conv), s => Inv(s), states, steps, i);
  }

  lemma RunInv(conv: Conversion, states: seq<State>, steps: seq<Step>, i: nat)
    requires SafeRun(conv, states, steps) && i < |states|
    ensures Inv(states[i])
  {
    InitInv(states[0]);
    FollowsInv(conv, states, steps, i);
  }

  // ----- Safety -----

  /** x is reached from y by following parent links. */
  ghost predicate Ancestor(a: Allocator, x: Prefix, y: Prefix)
    decreases y.len
  {
    y in a && a[y].Some? && a[y].value.len < y.len && (a[y].value == x || Ancestor(a, x, a[y].value))
  }

  lemma {:induction false} EnclosingIsAncestor(a: Allocator, k: set<Prefix>, x: Prefix, y: Prefix)
    requires Tree(a, k) && x in k && y in k && StrictlyCovers(x, y)
    ensures Ancestor(a, x, y)
    decreases y.len
  {
    ParentIsBelow(Restrict(a, k), x, y);
    var p := a[y].value;
    assert Restrict(a, k)[y] == a[y];
    if p != x {
      NestedOrDisjoint(x, p);
      EnclosingIsAncestor(a, k, x, p);
    }
  }

  /** The blocks of one owner overlap only where one is an ancestor of the other. */
  ghost predicate OwnBlocksNested(s: State) {
    forall o, c, d | Holds(s, o, c) && Holds(s, o, d) && c != d && Overlaps(c, d) ::
      Ancestor(s.ipam, c, d) || Ancestor(s.ipam, d, c)
  }

  ghost predicate HeldRegistered(s: State) {
    forall o, c | Holds(s, o, c) :: c in s.ipam
  }

  lemma InvMeansSafe(s: State)
    requires Inv(s)
    ensures OwnersDisjoint(s) && OwnBlocksNested(s) && HeldRegistered(s)
  {
    var k :| Tracked(s, k);
    forall o, c, d | Holds(s, o, c) && Holds(s, o, d) && c != d && Overlaps(c, d)
      ensures Ancestor(s.ipam, c, d) || Ancestor(s.ipam, d, c)
    {
      NestedOrDisjoint(c, d);
      NestedOrDisjoint(d, c);
      if Covers(c, d) {
        EnclosingIsAncestor(s.ipam, k, c, d);
      } else {
        EnclosingIsAncestor(s.ipam, k, d, c);
      }
    }
  }

  /** Whole-run safety: in any sequence of safe steps, blocks held by different (cluster, rule)
      pairs never overlap, those of one pair overlap only along ancestor links, and every held
      block is registered. */
  lemma WholeRunSafety(conv: Conversion, states: seq<State>, steps: seq<Step>, i: nat)
    requires SafeRun(conv, states, steps) && i < |states|
    ensures OwnersDisjoint(states[i]) && OwnBlocksNested(states[i]) && HeldRegistered(states[i])
  {
    RunInv(conv, states, steps, i);
    InvMeansSafe(states[i]);
  }

  // ----- Releasing without the finalizer -----

  /** All blocks of other owners are registered. */
  ghost predicate OthersRegistered(s: State, o: Owner) {
    forall o', c | o' != o && Holds(s, o', c) :: c in s.ipam
  }

  /** Releasing a ClusterConfig is sure to leave the blocks of all other owners registered if
      and only if none of them is on its patch list.  Nothing in the operation itself sees to
      that: a ClusterConfig that was released before, and is kept only by somebody else's
      finalizer, may well list a block that has a new owner. */
  lemma ReleaseSafeIff(s: State, o: Owner)
    requires o.cluster !in s.clusters && HasConfig(s, o) && ReadableValues(ConfigOf(s, o).patches) && HeldRegistered(s)
    ensures (forall s' | ReleaseStep(s, o, true, s') :: OthersRegistered(s', o))
      <==> (forall o', c | o' != o && Holds(s, o', c) :: c !in Listed(ConfigOf(s, o).patches))
  {
    var cc := ConfigOf(s, o);
    var b := s.ipam - Listed(cc.patches);
    AllReleased(s.ipam, cc.patches);
    var t := WithConfig(s, o, AfterDelete(cc.(finalizer := false))).(ipam := b);
    forall s' | ReleaseStep(s, o, true, s')
      ensures forall o', c | o' != o :: Holds(s', o', c) <==> Holds(s, o', c)
      ensures s.ipam.Keys - Listed(cc.patches) <= s'.ipam.Keys
    {
      ReleaseFrees(s, o, s');
      ReleaseFrame(s.ipam, cc.patches, s'.ipam);
    }
    assert ReleaseStep(s, o, true, t);
  }

  /** In a reachable state a ClusterConfig that holds the finalizer can be released, and those of
      existing clusters hold it. */
  lemma ReleaseSafeInReachable(conv: Conversion, states: seq<State>, steps: seq<Step>, i: nat, o: Owner)
    requires SafeRun(conv, states, steps) && i < |states| && HasConfig(states[i], o)
    ensures o.cluster in states[i].clusters ==> ConfigOf(states[i], o).finalizer
    ensures ConfigOf(states[i], o).finalizer ==>
      forall o', c | o' != o && Holds(states[i], o', c) :: c !in Listed(ConfigOf(states[i], o).patches)
  {
    RunInv(conv, states, steps, i);
    HeldListApart(states[i], o);
  }

  lemma HeldListApart(s: State, o: Owner)
    requires Inv(s) && HasConfig(s, o)
    ensures o.cluster in s.clusters ==> ConfigOf(s, o).finalizer
    ensures ConfigOf(s, o).finalizer ==>
      forall o', c | o' != o && Holds(s, o', c) :: c !in Listed(ConfigOf(s, o).patches)
  {
    HeldIfExisting(s, o);
    ListedIsBlockSet(ConfigOf(s, o).patches);
    if ConfigOf(s, o).finalizer {
      forall o', c | o' != o && Holds(s, o', c)
        ensures c !in Listed(ConfigOf(s, o).patches)
      {
        assert Overlaps(c, c);
        assert InConfig(s, o, c) ==> Holds(s, o, c);
      }
    }
  }

  // ----- Rebuilding in a reachable state -----

  /** In every reachable state a rebuild fails exactly if some held patch list has two nested
      blocks under no configured parent; otherwise it registers exactly the parents and the
      blocks on the held patch lists. */
  lemma RebuildInReachable(conv: Conversion, states: seq<State>, steps: seq<Step>, i: nat, relevant: set<string>,
                           r: Option<Allocator>)
    requires SafeRun(conv, states, steps) && i < |states| && RebuildsTo(states[i], relevant, r)
    ensures r.Some? <==> forall o :: !NestedUnparented(states[i], o)
    ensures r.Some? ==> WellFormed(r.value) && RebuiltFrom(states[i], r.value)
  {
    RunInv(conv, states, steps, i);
    RebuiltForest(states[i], relevant, r);
  }

  /** The rebuilt allocator has every block that either copy of the record names, of whatever
      cluster, if and only if every block recorded in an annotation is on a patch list. */
  lemma CoverageOf(s: State, a: Allocator)
    requires PlacedOk(s) && OwnersDisjoint(s) && RebuiltFrom(s, a)
    ensures (forall o, c | Holds(s, o, c) :: c in a) <==> Covered(s)
  {
    if forall o, c | Holds(s, o, c) :: c in a {
      forall o, c | InAnnotation(s, o, c)
        ensures InConfig(s, o, c)
      {
        assert Holds(s, o, c) && c in a;
        HeldAndListed(s, o, c);
      }
    }
  }

  lemma HeldAndListed(s: State, o: Owner, c: Prefix)
    requires PlacedOk(s) && OwnersDisjoint(s) && Holds(s, o, c)
    ensures !IsParent(s.parents, c)
    ensures (exists o' :: InConfig(s, o', c)) ==> InConfig(s, o, c)
  {
    assert Overlaps(c, c);
    if o' :| InConfig(s, o', c) {
      assert Holds(s, o', c);
    }
  }

  /** From a state s in which the clusters in question were repaired, through the handling of
      orphans, to the state t in which the allocator is rebuilt. */
  ghost predicate RestoredFrom(s: State, t: State, relevant: set<string>, r: Option<Allocator>) {
    && t.parents == s.parents && t.clusters == s.clusters && relevant <= s.clusters.Keys
    && (forall cl | cl in relevant :: RepairedCluster(t, cl))
    && (forall cl | cl in s.clusters && cl !in relevant :: ConfigsOf(t, cl) == ConfigsOf(s, cl))
    && RebuildsTo(t, relevant, r)
  }

  /** Restore coverage: after a restore all held blocks are registered if and only if, before it,
      nothing was lost of the clusters that match no rule. */
  lemma RestoreCoverage(s: State, t: State, relevant: set<string>, a: Allocator)
    requires Inv(t) && RestoredFrom(s, t, relevant, Some(a))
    ensures HeldRegistered(t.(ipam := a)) <==> UnmatchedCovered(s, relevant)
  {
    RebuiltForest(t, relevant, Some(a));
    CoverageOf(t, a);
    UnmatchedKept(s, t, relevant);
    CoveredIffUnmatched(t, relevant);
    SameHolds(t, t.(ipam := a));
  }

  lemma SameHolds(s: State, s': State)
    requires s'.clusters == s.clusters && s'.ccs == s.ccs
    ensures forall o, c :: Holds(s', o, c) <==> Holds(s, o, c)
  {
  }

  lemma CoveredIffUnmatched(s: State, relevant: set<string>)
    requires DataOk(s) && ReadyToRebuild(s, relevant)
    ensures Covered(s) <==> UnmatchedCovered(s, relevant)
  {
    if UnmatchedCovered(s, relevant) {
      ReadyIsCovered(s, relevant);
    }
    if Covered(s) {
      forall cl | cl in s.clusters
        ensures CoveredCluster(s, cl)
      {
      }
    }
  }

  lemma UnmatchedKept(s: State, t: State, relevant: set<string>)
    requires t.clusters == s.clusters
    requires forall cl | cl in s.clusters && cl !in relevant :: ConfigsOf(t, cl) == ConfigsOf(s, cl)
    ensures UnmatchedCovered(t, relevant) <==> UnmatchedCovered(s, relevant)
  {
    forall cl | cl in s.clusters && cl !in relevant
      ensures CoveredCluster(t, cl) <==> CoveredCluster(s, cl)
    {
      forall r, c
        ensures InAnnotation(t, Owner(cl, r), c) <==> InAnnotation(s, Owner(cl, r), c)
        ensures InConfig(t, Owner(cl, r), c) <==> InConfig(s, Owner(cl, r), c)
      {
        assert HasConfig(t, Owner(cl, r)) <==> r in ConfigsOf(t, cl);
        assert HasConfig(s, Owner(cl, r)) <==> r in ConfigsOf(s, cl);
      }
    }
  }

  ghost predicate AllParentsRegistered(s: State) {
    forall p | IsParent(s.parents, p) :: p in s.ipam
  }

  /** Round trip in every reachable state: the rebuild returns the live allocator, every
      parent link included, if and only if the patch lists have every recorded block, the
      configured parents are registered, and nothing is left over from failed or nested
      operations or earlier configurations. */
  lemma RebuildReturnsLive(conv: Conversion, states: seq<State>, steps: seq<Step>, i: nat, relevant: set<string>,
                           r: Option<Allocator>)
    requires SafeRun(conv, states, steps) && i < |states| && RebuildsTo(states[i], relevant, r) && r.Some?
    ensures r.value == states[i].ipam
      <==> Covered(states[i]) && NoneLeftOver(states[i]) && AllParentsRegistered(states[i])
  {
    RunInv(conv, states, steps, i);
    RebuiltForest(states[i], relevant, r);
    if r.value == states[i].ipam {
      InvMeansSafe(states[i]);
      CoverageOf(states[i], r.value);
      OnlyHeld(states[i], r.value);
    }
    if Covered(states[i]) && NoneLeftOver(states[i]) && AllParentsRegistered(states[i]) {
      SameAllocator(states[i], r.value);
    }
  }

  lemma OnlyHeld(s: State, a: Allocator)
    requires RebuiltFrom(s, a)
    ensures forall c | c in a :: IsParent(s.parents, c) || exists o :: Holds(s, o, c)
  {
    forall c | c in a && !IsParent(s.parents, c)
      ensures exists o :: Holds(s, o, c)
    {
      var o :| InConfig(s, o, c);
      assert Holds(s, o, c);
    }
  }

  lemma SameAllocator(s: State, a: Allocator)
    requires Inv(s) && Covered(s) && WellFormed(a) && NoneLeftOver(s) && AllParentsRegistered(s)
    requires RebuiltFrom(s, a)
    ensures a == s.ipam
  {
    var k :| Tracked(s, k);
    assert k == s.ipam.Keys;
    TreeOfAll(s.ipam);
    OnlyHeld(s, a);
    assert a.Keys == s.ipam.Keys;
    CanonicalForm(a, s.ipam);
  }

  // ----- Immutability over runs -----

  ghost predicate RecordedAs(s: State, o: Owner, path: string, text: Text) {
    && o.cluster in s.clusters && o.rule in s.clusters[o.cluster]
    && path in s.clusters[o.cluster][o.rule] && s.clusters[o.cluster][o.rule][path] == text
  }

  /** The steps that take the record itself away: the cluster goes, or its annotation does. */
  predicate Forgets(step: Step, cl: string) {
    step == DeleteCluster(cl) || step == LoseAnnotation(cl)
  }

  lemma StepKeepsRecord(conv: Conversion, s: State, step: Step, s': State, o: Owner, path: string, text: Text)
    requires Next(conv, s, step, s') && !Forgets(step, o.cluster) && RecordedAs(s, o, path, text)
    ensures RecordedAs(s', o, path, text)
  {
    if step.Reconcile? {
      ReconcileAddsTo(s, step.cluster, step.rules, conv, s');
      AddingKeepsRecord(s, step.cluster, s', s', o, path, text);
    } else if step.ReconcilePartly? {
      var cl, rules := step.cluster, step.rules;
      var intended :| ReconcileStep(s, cl, rules, conv, intended) && PartlyWritten(s, intended, cl, s');
      ReconcileAddsTo(s, cl, rules, conv, intended);
      AddingKeepsRecord(s, cl, intended, s', o, path, text);
    } else {
      OtherStepKeepsRecord(conv, s, step, s', o, path, text);
    }
  }

  lemma AddingKeepsRecord(s: State, cl: string, intended: State, s': State, o: Owner, path: string, text: Text)
    requires AddsTo(s, cl, intended) && (s'.clusters == intended.clusters || s'.clusters == s.clusters)
    requires RecordedAs(s, o, path, text)
    ensures RecordedAs(s', o, path, text)
  {
  }

  lemma OtherStepKeepsRecord(conv: Conversion, s: State, step: Step, s': State, o: Owner, path: string, text: Text)
    requires Next(conv, s, step, s') && !Forgets(step, o.cluster) && RecordedAs(s, o, path, text)
    requires !step.Reconcile? && !step.ReconcilePartly?
    ensures RecordedAs(s', o, path, text)
  {
  }

  ghost predicate NotForgotten(steps: seq<Step>, i: nat, j: nat, cl: string) {
    forall k | i <= k < j && k < |steps| :: !Forgets(steps[k], cl)
  }

  /** No step from state i to state j takes the record away. */
  ghost predicate StepsKeep(states: seq<State>, i: nat, j: nat, o: Owner, path: string, text: Text) {
    && j < |states|
    && forall k | i <= k < j :: RecordedAs(states[k], o, path, text) ==> RecordedAs(states[k + 1], o, path, text)
  }

  lemma {:induction false} KeptSteps(states: seq<State>, i: nat, j: nat, o: Owner, path: string, text: Text)
    requires i <= j && StepsKeep(states, i, j, o, path, text) && RecordedAs(states[i], o, path, text)
    ensures RecordedAs(states[j], o, path, text)
  {
    if i < j {
      KeptSteps(states, i, j - 1, o, path, text);
      assert RecordedAs(states[j - 1], o, path, text) ==> RecordedAs(states[j - 1 + 1], o, path, text);
    }
  }

  /** Once recorded, a (cluster, rule, path) keeps its value under any sequence of steps and
      configurations, as long as the cluster and its annotation exist. */
  lemma RecordedForever(conv: Conversion, states: seq<State>, steps: seq<Step>, i: nat, j: nat,
                        o: Owner, path: string, text: Text)
    requires Follows(conv, states, steps) && i <= j < |states| && RecordedAs(states[i], o, path, text)
    requires NotForgotten(steps, i, j, o.cluster)
    ensures RecordedAs(states[j], o, path, text)
  {
    forall k | i <= k < j && RecordedAs(states[k], o, path, text)
      ensures RecordedAs(states[k + 1], o, path, text)
    {
      StepOfRun(conv, states, steps, k);
      assert !Forgets(steps[k], o.cluster);
      StepKeepsRecord(conv, states[k], steps[k], states[k + 1], o, path, text);
    }
    KeptSteps(states, i, j, o, path, text);
  }

  /** No reconcile removes or alters a patch: it only adds some and reorders. */
  lemma ReconcileKeepsPatches(s: State, cl: string, rules: seq<Rule>, conv: Conversion, ws: seq<Work>, m: Managed,
                              s': State,
                              r: RuleId, x: Patch)
    requires ReconcileWith(s, cl, rules, conv, ws, Some(m), s')
    requires r in ConfigsOf(s, cl) && x in ConfigsOf(s, cl)[r].patches
    ensures r in ConfigsOf(s', cl) && x in ConfigsOf(s', cl)[r].patches
  {
    ReconcileKeepsRecorded(s.ipam, s.clusters[cl], ConfigsOf(s, cl), rules, s.parents, conv, ws, m, s'.ipam);
  }
}
