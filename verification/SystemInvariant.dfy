/** The invariant of the state machine, and that every step keeps it. */
module SystemInvariant {
  import opened Prefixes
  import opened Forest
  import opened GoIpam
  import opened Config
  import opened Patches
  import SortTheorems
  import opened Generation
  import opened Repair
  import opened Release
  import opened Rebuild
  import opened RebuildTheorems
  import opened InjectionManagement
  import opened InjectionTheorems
  import opened System

  // ----- The invariant -----

  /** The patch list is one the code produced. */
  ghost predicate ConfigOk(cc: ClusterConfig) {
    AllBlockPatches(cc.patches) && SizeSorted(cc.patches) && DistinctPaths(cc.patches)
  }

  ghost predicate AllBlockTexts(injections: Injections) {
    forall p | p in injections :: injections[p].Block?
  }

  ghost predicate AnnotationOk(applied: AppliedRules) {
    forall r | r in applied :: AllBlockTexts(applied[r])
  }

  ghost predicate ConfigsOk(ccs: ClusterConfigs) {
    forall r | r in ccs :: ConfigOk(ccs[r])
  }

  /** The ClusterConfigs of an existing cluster hold the finalizer, and the two copies of the
      record do not contradict each other. */
  ghost predicate ClusterOk(applied: AppliedRules, ccs: ClusterConfigs) {
    && AnnotationOk(applied) && AllHeld(ccs)
    && forall r | r in applied && r in ccs :: SameValues(applied[r], ccs[r].patches)
  }

  ghost predicate DataOk(s: State) {
    && (forall cl | cl in s.ccs :: ConfigsOk(s.ccs[cl]))
    && (forall cl | cl in s.clusters :: ClusterOk(s.clusters[cl], ConfigsOf(s, cl)))
  }

  /** Where the record and the patches name the same path, they name the same value. */
  ghost predicate SameValues(injections: Injections, patches: seq<Patch>) {
    forall x | x in patches && x.path in injections :: x == AddPatch(x.path, injections[x.path])
  }

  /** Every block recorded in an annotation is also on a patch list. */
  ghost predicate Covered(s: State) {
    forall o, c | InAnnotation(s, o, c) :: InConfig(s, o, c)
  }

  lemma RepairedIsCovered(s: State, cl: string)
    requires DataOk(s) && RepairedCluster(s, cl)
    ensures CoveredCluster(s, cl)
  {
    forall r, c | InAnnotation(s, Owner(cl, r), c)
      ensures InConfig(s, Owner(cl, r), c)
    {
      var recorded := s.clusters[cl][r];
      var p :| p in recorded && recorded[p].Block? && recorded[p].cidr == c;
      assert !NeedsCreate(s.clusters[cl], ConfigsOf(s, cl), r);
      assert !NeedsUpdate(s.clusters[cl], ConfigsOf(s, cl), r);
      var patches := ConfigsOf(s, cl)[r].patches;
      assert p !in Missing(recorded, ConfigsOf(s, cl)[r]);
      var i :| 0 <= i < |patches| && patches[i].path == p;
      assert patches[i] in patches;
      BlockSetMembers(patches, c);
      assert ClusterOk(s.clusters[cl], ConfigsOf(s, cl));
    }
  }

  lemma ReadyIsCovered(s: State, relevant: set<string>)
    requires DataOk(s) && ReadyToRebuild(s, relevant) && UnmatchedCovered(s, relevant)
    ensures Covered(s)
  {
    forall o, c | InAnnotation(s, o, c)
      ensures InConfig(s, o, c)
    {
      if o.cluster in relevant {
        RepairedIsCovered(s, o.cluster);
      }
      assert InAnnotation(s, Owner(o.cluster, o.rule), c);
    }
  }

  /** Nothing is registered besides the configured parents and the held blocks. */
  ghost predicate NoneLeftOver(s: State) {
    forall c | c in s.ipam :: IsParent(s.parents, c) || exists o :: Holds(s, o, c)
  }

  /** Every held block lies strictly inside the configured parents it overlaps. */
  ghost predicate PlacedOk(s: State) {
    forall o, c, p | Holds(s, o, c) && IsParent(s.parents, p) && Overlaps(p, c) :: StrictlyCovers(p, c)
  }

  /** Blocks held by different owners do not overlap. */
  ghost predicate OwnersDisjoint(s: State) {
    forall o, c, o', c' | Holds(s, o, c) && Holds(s, o', c') && o != o' :: !Overlaps(c, c')
  }

  /** k is a part of the allocator that forms a forest and contains the registered parents, all
      other roots, and all held blocks; what is registered besides is left over. */
  ghost predicate Tracked(s: State, k: set<Prefix>) {
    && Tree(s.ipam, k)
    && (forall p | IsParent(s.parents, p) && p in s.ipam :: p in k)
    && (forall p | p in s.ipam && s.ipam[p].None? :: p in k)
    && (forall o, c | Holds(s, o, c) :: c in k)
  }

  ghost predicate Inv(s: State) {
    ParentsOk(s.parents) && DataOk(s) && PlacedOk(s) && OwnersDisjoint(s) && exists k :: Tracked(s, k)
  }

  // ----- Steps that hold no more than before -----

  ghost predicate HoldsNoMore(s: State, s': State) {
    forall o, c | Holds(s', o, c) :: Holds(s, o, c)
  }

  lemma ShrinkInv(s: State, s': State)
    requires Inv(s) && DataOk(s') && s'.parents == s.parents && s'.ipam == s.ipam && HoldsNoMore(s, s')
    ensures Inv(s')
  {
    var k :| Tracked(s, k);
    assert Tracked(s', k);
  }

  lemma CreateInv(s: State, cl: string, s': State)
    requires Inv(s) && CreateStep(s, cl, s') && AllHeld(ConfigsOf(s, cl))
    ensures Inv(s')
  {
    assert forall c :: ConfigsOf(s', c) == ConfigsOf(s, c);
    ShrinkInv(s, s');
  }

  lemma RecordLostInv(s: State, cl: string, s': State)
    requires Inv(s) && (DeleteStep(s, cl, s') || LoseAnnotationStep(s, cl, s'))
    ensures Inv(s')
  {
    LessRecorded(s, s');
    ShrinkInv(s, s');
  }

  /** Annotations go, or are emptied. */
  lemma LessRecorded(s: State, s': State)
    requires DataOk(s) && s'.ccs == s.ccs
    requires forall cl | cl in s'.clusters :: cl in s.clusters && (s'.clusters[cl] in [s.clusters[cl], map[]])
    ensures DataOk(s') && HoldsNoMore(s, s')
  {
    forall cl | cl in s'.clusters
      ensures ClusterOk(s'.clusters[cl], ConfigsOf(s', cl))
    {
      assert ClusterOk(s.clusters[cl], ConfigsOf(s, cl)) && ConfigsOf(s', cl) == ConfigsOf(s, cl);
    }
  }

  // ----- A single ClusterConfig -----

  ghost predicate HoldsLess(was: ClusterConfig, now: ClusterConfig) {
    && (ConfigOk(was) ==> ConfigOk(now))
    && (forall x | x in now.patches :: x in was.patches)
    && BlockSet(now.patches) <= BlockSet(was.patches)
    && (now.finalizer ==> was.finalizer)
  }

  /** The owner's ClusterConfig goes, or changes to one that holds no more; that of an existing
      cluster keeps the finalizer. */
  ghost predicate MayBecome(s: State, o: Owner, now: Option<ClusterConfig>) {
    && HasConfig(s, o)
    && (now.Some? ==> HoldsLess(ConfigOf(s, o), now.value) && (o.cluster in s.clusters ==> now.value.finalizer))
  }

  lemma ConfigShrinksData(s: State, o: Owner, now: Option<ClusterConfig>)
    requires DataOk(s) && MayBecome(s, o, now)
    ensures DataOk(WithConfig(s, o, now))
  {
    var s' := WithConfig(s, o, now);
    assert ConfigsOk(s.ccs[o.cluster]);
    assert ConfigsOf(s, o.cluster) == s.ccs[o.cluster];
    assert ConfigsOk(ConfigsOf(s', o.cluster));
    forall cl | cl in s'.clusters
      ensures ClusterOk(s'.clusters[cl], ConfigsOf(s', cl))
    {
      assert ClusterOk(s.clusters[cl], ConfigsOf(s, cl));
      assert cl != o.cluster ==> ConfigsOf(s', cl) == ConfigsOf(s, cl);
    }
  }

  lemma ConfigShrinksHolds(s: State, o: Owner, now: Option<ClusterConfig>)
    requires MayBecome(s, o, now)
    ensures HoldsNoMore(s, WithConfig(s, o, now))
  {
    var s' := WithConfig(s, o, now);
    forall o', c | InConfig(s', o', c)
      ensures InConfig(s, o', c)
    {
      if o' != o {
        assert HasConfig(s, o') && ConfigOf(s', o') == ConfigOf(s, o');
      }
    }
  }

  lemma ConfigShrinksInv(s: State, o: Owner, now: Option<ClusterConfig>)
    requires Inv(s) && MayBecome(s, o, now)
    ensures Inv(WithConfig(s, o, now))
  {
    ConfigShrinksData(s, o, now);
    ConfigShrinksHolds(s, o, now);
    ShrinkInv(s, WithConfig(s, o, now));
  }

  lemma LosePatchInv(s: State, o: Owner, i: nat, s': State)
    requires Inv(s) && LosePatchStep(s, o, i, s')
    ensures Inv(s')
  {
    LosingPatchHoldsLess(ConfigOf(s, o), i);
    HeldIfExisting(s, o);
    ConfigShrinksInv(s, o, Some(LosingPatch(ConfigOf(s, o), i)));
  }

  lemma HeldIfExisting(s: State, o: Owner)
    requires DataOk(s) && HasConfig(s, o)
    ensures ConfigOk(ConfigOf(s, o))
    ensures o.cluster in s.clusters ==> ConfigOf(s, o).finalizer
  {
    assert ConfigsOk(s.ccs[o.cluster]);
    if o.cluster in s.clusters {
      assert ClusterOk(s.clusters[o.cluster], ConfigsOf(s, o.cluster));
    }
  }

  lemma LosingPatchHoldsLess(cc: ClusterConfig, i: nat)
    requires i < |cc.patches|
    ensures HoldsLess(cc, LosingPatch(cc, i))
  {
    var left := LosingPatch(cc, i).patches;
    assert forall j | 0 <= j < |left| :: left[j] == cc.patches[if j < i then j else j + 1];
    KeptPatchesKeepBlocks(left, cc.patches);
  }

  /** A lost ClusterConfig, other finalizers set or cleared, and a deletion that has to wait for
      finalizers. */
  lemma MetadataInv(s: State, o: Owner, s': State)
    requires Inv(s)
    requires LoseConfigStep(s, o, s') || SetForeignStep(s, o, s') || ClearForeignStep(s, o, s')
      || DeleteConfigStep(s, o, s')
    ensures Inv(s')
  {
    var now := if HasConfig(s', o) then Some(ConfigOf(s', o)) else None;
    MetadataChanges(s, o, s');
    ConfigShrinksInv(s, o, now);
  }

  lemma MetadataChanges(s: State, o: Owner, s': State)
    requires DataOk(s)
    requires LoseConfigStep(s, o, s') || SetForeignStep(s, o, s') || ClearForeignStep(s, o, s')
      || DeleteConfigStep(s, o, s')
    ensures var now := if HasConfig(s', o) then Some(ConfigOf(s', o)) else None;
      MayBecome(s, o, now) && s' == WithConfig(s, o, now)
  {
    HeldIfExisting(s, o);
  }

  // ----- Repair -----

  lemma SortedBlocks(all: seq<Patch>)
    requires AllBlockPatches(all)
    ensures AllBlockPatches(SortPatches(all)) && SizeSorted(SortPatches(all))
  {
    var now := SortPatches(all);
    assert AllSized(all);
    SortTheorems.SortOrders(all);
    forall i | 0 <= i < |now|
      ensures AddsBlock(now[i])
    {
      assert now[i] in multiset(now);
      assert now[i] in all;
    }
    forall i, j | 0 <= i < j < |now|
      ensures BlockOf(now[i]).len <= BlockOf(now[j]).len
    {
      assert !Less(now[j], now[i]);
    }
  }

  lemma SortedConfigOk(was: seq<Patch>, added: Injections, now: seq<Patch>)
    requires PatchesAdded(was, added, now) && AllBlockPatches(was) && AllBlockTexts(added)
    requires DistinctPaths(was) && forall p | p in added :: !HasPath(was, p)
    ensures AllBlockPatches(now) && SizeSorted(now) && DistinctPaths(now)
  {
    var order :| Enumerates(order, added.Keys) && now == SortPatches(was + Listing(order, added));
    var all := was + Listing(order, added);
    ListingBlocks(order, added);
    assert AllBlockPatches(all);
    SortedBlocks(all);
    AddedPathsDistinct(was, added, order);
    PermutationKeepsPaths(all, now);
  }

  lemma AddedPathsDistinct(was: seq<Patch>, added: Injections, order: seq<string>)
    requires Enumerates(order, added.Keys) && DistinctPaths(was) && forall p | p in added :: !HasPath(was, p)
    ensures DistinctPaths(was + Listing(order, added))
  {
    var all := was + Listing(order, added);
    forall i, j | 0 <= i < j < |all|
      ensures all[i].path != all[j].path
    {
      if j >= |was| {
        assert all[j].path == order[j - |was|] && order[j - |was|] in added;
        assert !HasPath(was, all[j].path);
        assert i >= |was| ==> all[i].path == order[i - |was|];
      }
    }
  }

  lemma ListingBlocks(order: seq<string>, added: Injections)
    requires Enumerates(order, added.Keys) && AllBlockTexts(added)
    ensures AllBlockPatches(Listing(order, added))
  {
    forall i | 0 <= i < |order|
      ensures AddsBlock(Listing(order, added)[i])
    {
      assert order[i] in added;
    }
  }

  lemma RepairedConfigOk(applied: AppliedRules, ccs: ClusterConfigs, ins: Instruction, r: RuleId)
    requires CheckSpec(applied, ccs, ins) && r in Apply(ccs, ins)
    requires AnnotationOk(applied) && (r in ccs ==> ConfigOk(ccs[r]))
    ensures ConfigOk(Apply(ccs, ins)[r])
  {
    RepairedPatches(applied, ccs, ins, r);
    RepairRestoresFinalizer(applied, ccs, ins, r);
    if NeedsUpdate(applied, ccs, r) || NeedsCreate(applied, ccs, r) {
      SortedConfigOk(if r in ccs then ccs[r].patches else [],
                     if r in ccs then MissingOf(applied, ccs, r) else applied[r], Apply(ccs, ins)[r].patches);
    }
  }

  lemma RepairedSameValues(applied: AppliedRules, ccs: ClusterConfigs, ins: Instruction, r: RuleId)
    requires CheckSpec(applied, ccs, ins) && r in Apply(ccs, ins) && r in applied
    requires r in ccs ==> SameValues(applied[r], ccs[r].patches)
    ensures SameValues(applied[r], Apply(ccs, ins)[r].patches)
  {
    forall x | x in Apply(ccs, ins)[r].patches && x.path in applied[r]
      ensures x == AddPatch(x.path, applied[r][x.path])
    {
      RepairAddsRecordedOnly(applied, ccs, ins, r, x);
    }
  }

  lemma RepairedBlocks(applied: AppliedRules, ccs: ClusterConfigs, ins: Instruction, r: RuleId, c: Prefix)
    requires CheckSpec(applied, ccs, ins) && r in Apply(ccs, ins) && c in BlockSet(Apply(ccs, ins)[r].patches)
    ensures (r in ccs && c in BlockSet(ccs[r].patches)) || (r in applied && c in RecordedBlocks(applied[r]))
  {
    var patches := Apply(ccs, ins)[r].patches;
    BlockSetMembers(patches, c);
    var i :| 0 <= i < |patches| && AddsBlock(patches[i]) && BlockOf(patches[i]) == c;
    assert patches[i] in patches;
    RepairAddsRecordedOnly(applied, ccs, ins, r, patches[i]);
    if r in ccs && patches[i] in ccs[r].patches {
      BlockSetMembers(ccs[r].patches, c);
    }
  }

  /** The repaired ClusterConfigs of a cluster fit its annotation and hold the finalizer. */
  lemma RepairedClusterOk(applied: AppliedRules, ccs: ClusterConfigs, ins: Instruction)
    requires ClusterOk(applied, ccs) && ConfigsOk(ccs) && CheckSpec(applied, ccs, ins)
    ensures ClusterOk(applied, Apply(ccs, ins)) && ConfigsOk(Apply(ccs, ins))
  {
    forall r | r in Apply(ccs, ins)
      ensures ConfigOk(Apply(ccs, ins)[r]) && Apply(ccs, ins)[r].finalizer
      ensures r in applied ==> SameValues(applied[r], Apply(ccs, ins)[r].patches)
    {
      RepairedConfigOk(applied, ccs, ins, r);
      RepairRestoresFinalizer(applied, ccs, ins, r);
      if r in applied {
        RepairedSameValues(applied, ccs, ins, r);
      }
    }
  }

  /** The state with another annotation and other ClusterConfigs for one cluster. */
  function WithCluster(s: State, cl: string, applied: AppliedRules, ccs: ClusterConfigs): State {
    s.(clusters := s.clusters[cl := applied], ccs := s.ccs[cl := ccs])
  }

  lemma OneClusterData(s: State, cl: string, applied: AppliedRules, ccs: ClusterConfigs)
    requires DataOk(s) && ClusterOk(applied, ccs) && ConfigsOk(ccs)
    ensures DataOk(WithCluster(s, cl, applied, ccs))
  {
    var s' := WithCluster(s, cl, applied, ccs);
    forall c | c in s'.clusters
      ensures ClusterOk(s'.clusters[c], ConfigsOf(s', c))
    {
      if c != cl {
        assert ConfigsOf(s', c) == ConfigsOf(s, c);
      }
    }
  }

  lemma ClusterData(s: State, cl: string)
    requires DataOk(s) && cl in s.clusters
    ensures ClusterOk(s.clusters[cl], ConfigsOf(s, cl)) && ConfigsOk(ConfigsOf(s, cl))
  {
  }

  lemma RepairedInv(s: State, cl: string, ins: Instruction, s': State)
    requires Inv(s) && cl in s.clusters && CheckSpec(s.clusters[cl], ConfigsOf(s, cl), ins)
    requires s' == s.(ccs := s.ccs[cl := Apply(ConfigsOf(s, cl), ins)])
    ensures Inv(s')
  {
    ClusterData(s, cl);
    RepairedClusterOk(s.clusters[cl], ConfigsOf(s, cl), ins);
    OneClusterData(s, cl, s.clusters[cl], Apply(ConfigsOf(s, cl), ins));
    assert s' == WithCluster(s, cl, s.clusters[cl], Apply(ConfigsOf(s, cl), ins));
    RepairedHoldsNoMore(s, cl, ins, s');
    ShrinkInv(s, s');
  }

  lemma RepairedHoldsNoMore(s: State, cl: string, ins: Instruction, s': State)
    requires DataOk(s) && cl in s.clusters && CheckSpec(s.clusters[cl], ConfigsOf(s, cl), ins)
    requires s' == s.(ccs := s.ccs[cl := Apply(ConfigsOf(s, cl), ins)])
    ensures HoldsNoMore(s, s')
  {
    ClusterData(s, cl);
    forall o, c | InConfig(s', o, c)
      ensures Holds(s, o, c)
    {
      if o.cluster == cl {
        RepairedBlocks(s.clusters[cl], ConfigsOf(s, cl), ins, o.rule, c);
        assert o.rule in ConfigsOf(s, cl) ==> HasConfig(s, o) && ConfigOf(s, o).finalizer;
      } else {
        assert HasConfig(s, o) && ConfigOf(s, o) == ConfigOf(s', o);
      }
    }
  }

  lemma RepairInv(s: State, cl: string, s': State)
    requires Inv(s) && RepairStep(s, cl, s')
    ensures Inv(s')
  {
    var ins :| CheckSpec(s.clusters[cl], ConfigsOf(s, cl), ins)
      && s' == s.(ccs := s.ccs[cl := Apply(ConfigsOf(s, cl), ins)]);
    RepairedInv(s, cl, ins, s');
  }

  // ----- Release -----

  lemma {:induction false} ListedIsBlockSet(patches: seq<Patch>)
    requires AllBlockPatches(patches)
    ensures Listed(patches) == BlockSet(patches)
  {
    if patches != [] {
      ListedIsBlockSet(patches[..|patches| - 1]);
    }
  }

  /** Dropping some blocks together with everything inside them, except for roots that stay,
      leaves a forest. */
  lemma CutTree(a: Allocator, k: set<Prefix>, b: Allocator, gone: set<Prefix>) returns (k': set<Prefix>)
    requires Tree(a, k) && b.Keys <= a.Keys && a.Keys - gone <= b.Keys && forall x | x in b :: b[x] == a[x]
    ensures Tree(b, k')
    ensures forall c :: c in k' <==> c in k && c in b && (b[c].None? || forall x | x in gone :: !Covers(x, c))
  {
    k' := set c | c in k && c in b && (b[c].None? || forall x | x in gone :: !Covers(x, c));
    forall c | c in k' && a[c].Some?
      ensures a[c].value in k'
    {
      assert Restrict(a, k)[c] == a[c];
      assert forall x | x in gone :: !Covers(x, a[c].value);
      assert Covers(a[c].value, a[c].value);
    }
    ShrinkTree(a, k, b, k');
  }

  /** A successful release: the owner holds nothing any more, everybody else what he held. */
  lemma ReleaseFrees(s: State, o: Owner, s': State)
    requires ReleaseStep(s, o, true, s')
    ensures forall c :: !Holds(s', o, c)
    ensures forall o', c | o' != o :: Holds(s', o', c) <==> Holds(s, o', c)
  {
    forall o' | o' != o
      ensures HasConfig(s', o') <==> HasConfig(s, o')
      ensures HasConfig(s, o') ==> ConfigOf(s', o') == ConfigOf(s, o')
    {
    }
  }

  lemma ReleaseData(s: State, o: Owner, ok: bool, s': State)
    requires DataOk(s) && ReleaseStep(s, o, ok, s')
    ensures DataOk(s')
  {
    var cc := ConfigOf(s, o);
    var now := AfterDelete(if ok then cc.(finalizer := false) else cc);
    ConfigShrinksData(s, o, now);
    SameData(WithConfig(s, o, now), s');
  }

  lemma SameData(s: State, s': State)
    requires DataOk(s) && s'.clusters == s.clusters && s'.ccs == s.ccs
    ensures DataOk(s')
  {
    assert forall cl :: ConfigsOf(s', cl) == ConfigsOf(s, cl);
  }

  /** A block the owner holds covers no block of anybody else, and no configured parent. */
  lemma HeldCoversNoOther(s: State, o: Owner, x: Prefix)
    requires PlacedOk(s) && OwnersDisjoint(s) && InConfig(s, o, x)
    ensures forall o', c | o' != o && Holds(s, o', c) :: !Covers(x, c)
    ensures forall p | IsParent(s.parents, p) :: !Covers(x, p)
  {
    assert Holds(s, o, x);
    forall o', c | o' != o && Holds(s, o', c)
      ensures !Covers(x, c)
    {
      assert !Overlaps(x, c);
    }
    forall p | IsParent(s.parents, p)
      ensures !Covers(x, p)
    {
      NestedOrDisjoint(x, p);
      assert Overlaps(p, x) ==> StrictlyCovers(p, x);
    }
  }

  lemma ReleasedInv(s: State, o: Owner, s': State)
    requires Inv(s) && ReleaseStep(s, o, true, s') && ConfigOf(s, o).finalizer
    ensures Inv(s')
  {
    var cc := ConfigOf(s, o);
    HeldIfExisting(s, o);
    ReleaseFrame(s.ipam, cc.patches, s'.ipam);
    ReleaseFrees(s, o, s');
    ReleaseData(s, o, true, s');
    ListedIsBlockSet(cc.patches);
    var k :| Tracked(s, k);
    var k' := CutTree(s.ipam, k, s'.ipam, Listed(cc.patches));
    ReleasedTracked(s, o, s', k, k');
  }

  lemma ReleasedTracked(s: State, o: Owner, s': State, k: set<Prefix>, k': set<Prefix>)
    requires Inv(s) && DataOk(s') && s'.parents == s.parents && o.cluster !in s.clusters && s'.clusters == s.clusters
    requires HasConfig(s, o) && ConfigOf(s, o).finalizer && Tracked(s, k) && Tree(s'.ipam, k')
    requires s'.ipam.Keys <= s.ipam.Keys && forall x | x in s'.ipam :: s'.ipam[x] == s.ipam[x]
    requires s.ipam.Keys - BlockSet(ConfigOf(s, o).patches) <= s'.ipam.Keys
    requires forall c :: !Holds(s', o, c)
    requires forall o', c | o' != o :: Holds(s', o', c) <==> Holds(s, o', c)
    requires forall c :: c in k' <==>
      (c in k && c in s'.ipam
       && (s'.ipam[c].None? || forall x | x in BlockSet(ConfigOf(s, o).patches) :: !Covers(x, c)))
    ensures Inv(s')
  {
    var gone := BlockSet(ConfigOf(s, o).patches);
    forall x | x in gone
      ensures forall o', c | o' != o && Holds(s, o', c) :: !Covers(x, c)
      ensures forall p | IsParent(s.parents, p) :: !Covers(x, p)
    {
      assert InConfig(s, o, x);
      HeldCoversNoOther(s, o, x);
    }
    forall o', c | Holds(s', o', c)
      ensures Holds(s, o', c) && o' != o && c in k'
    {
      assert Covers(c, c);
    }
    forall p | IsParent(s'.parents, p) && p in s'.ipam
      ensures p in k'
    {
    }
    assert Tracked(s', k');
  }

  lemma ReleaseInv(s: State, o: Owner, ok: bool, s': State)
    requires Inv(s) && ReleaseStep(s, o, ok, s') && SafeStep(s, ReleaseConfig(o, ok))
    ensures Inv(s')
  {
    var cc := ConfigOf(s, o);
    if !ok {
      ConfigShrinksInv(s, o, AfterDelete(cc));
    } else if cc.finalizer {
      ReleasedInv(s, o, s');
    } else {
      ReleaseFrame(s.ipam, cc.patches, s'.ipam);
      assert s'.ipam == s.ipam;
      ConfigShrinksInv(s, o, AfterDelete(cc));
    }
  }

  // ----- Rebuild and restart -----

  lemma FlattenedParents(parents: map<string, seq<Prefix>>, ids: seq<string>, p: Prefix)
    requires Enumerates(ids, parents.Keys)
    ensures p in Flatten(ids, parents) <==> IsParent(parents, p)
  {
    FlattenMembers(ids, parents, p);
  }

  /** What a rebuild takes in is what holds the finalizer. */
  lemma HandledIsHeld(s: State, relevant: set<string>, o: Owner)
    requires DataOk(s) && relevant <= s.clusters.Keys
    ensures o in Handled(s.ccs, relevant) <==> HasConfig(s, o) && ConfigOf(s, o).finalizer
    ensures o in Handled(s.ccs, relevant) ==> Handled(s.ccs, relevant)[o] == ConfigOf(s, o).patches
    ensures o in Handled(s.ccs, relevant) ==> ConfigOk(ConfigOf(s, o))
  {
    assert o == Owner(o.cluster, o.rule);
    if HasConfig(s, o) {
      HeldIfExisting(s, o);
    }
  }

  lemma HandledBlocks(s: State, relevant: set<string>, c: Prefix)
    requires DataOk(s) && relevant <= s.clusters.Keys
    ensures (exists o :: o in Handled(s.ccs, relevant) && c in BlockSet(Handled(s.ccs, relevant)[o]))
       <==> exists o :: InConfig(s, o, c)
  {
    if o :| InConfig(s, o, c) {
      HandledIsHeld(s, relevant, o);
    }
    if o :| o in Handled(s.ccs, relevant) && c in BlockSet(Handled(s.ccs, relevant)[o]) {
      HandledIsHeld(s, relevant, o);
      assert InConfig(s, o, c);
    }
  }

  lemma HandledOk(s: State, ids: seq<string>, relevant: set<string>)
    requires DataOk(s) && PlacedOk(s) && OwnersDisjoint(s) && Enumerates(ids, s.parents.Keys)
    requires relevant <= s.clusters.Keys
    ensures OwnersOk(Flatten(ids, s.parents), Handled(s.ccs, relevant))
  {
    var h := Handled(s.ccs, relevant);
    forall o | o in h
      ensures SizeSorted(h[o]) && NotAbove(Flatten(ids, s.parents), BlockSet(h[o]))
      ensures forall c | c in BlockSet(h[o]) :: Holds(s, o, c)
    {
      HandledIsHeld(s, relevant, o);
      forall p, c | p in Flatten(ids, s.parents) && c in BlockSet(h[o]) && Overlaps(p, c)
        ensures Covers(p, c)
      {
        FlattenedParents(s.parents, ids, p);
        assert InConfig(s, o, c) && Holds(s, o, c);
      }
    }
    forall o, o' | o in h && o' in h && o != o'
      ensures DisjointSets(BlockSet(h[o]), BlockSet(h[o']))
    {
      forall c, c' | c in BlockSet(h[o]) && c' in BlockSet(h[o'])
        ensures !Overlaps(c, c')
      {
        assert Holds(s, o, c) && Holds(s, o', c');
      }
    }
  }

  /** What a rebuild from the current patch lists yields. */
  lemma RebuiltForest(s: State, relevant: set<string>, r: Option<Allocator>)
    requires ParentsOk(s.parents) && DataOk(s) && PlacedOk(s) && OwnersDisjoint(s) && RebuildsTo(s, relevant, r)
    ensures r.Some? <==> forall o :: !NestedUnparented(s, o)
    ensures r.Some? ==> WellFormed(r.value) && RebuiltFrom(s, r.value)
  {
    var ids: seq<string>, keys: seq<Owner> :| Enumerates(ids, s.parents.Keys)
      && Enumerates(keys, Handled(s.ccs, relevant).Keys)
      && r == RebuildFrom(Flatten(ids, s.parents), ListsIn(keys, Handled(s.ccs, relevant)));
    var ps, h := Flatten(ids, s.parents), Handled(s.ccs, relevant);
    HandledOk(s, ids, relevant);
    OrderedOwners(ps, h, keys);
    RebuildExact(ps, ListsIn(keys, h));
    ParentsFlattenOk(s.parents, ids);
    RestorableMeans(s, ids, relevant);
    if r.Some? {
      RebuiltKeys(s, relevant, ids, keys, r.value);
    }
  }

  /** The allocator has exactly the configured parents and the blocks on held patch lists. */
  ghost predicate RebuiltFrom(s: State, a: Allocator) {
    forall c :: c in a <==> IsParent(s.parents, c) || exists o :: InConfig(s, o, c)
  }

  lemma ParentsFlattenOk(parents: map<string, seq<Prefix>>, ids: seq<string>)
    requires ParentsOk(parents) && Enumerates(ids, parents.Keys)
    ensures EqualOrDisjoint(Flatten(ids, parents))
  {
    forall p, q | p in Flatten(ids, parents) && q in Flatten(ids, parents) && p != q
      ensures !Overlaps(p, q)
    {
      FlattenedParents(parents, ids, p);
      FlattenedParents(parents, ids, q);
    }
  }

  lemma RebuiltKeys(s: State, relevant: set<string>, ids: seq<string>, keys: seq<Owner>, a: Allocator)
    requires DataOk(s) && relevant <= s.clusters.Keys
    requires Enumerates(ids, s.parents.Keys) && Enumerates(keys, Handled(s.ccs, relevant).Keys)
    requires a.Keys == (set p | p in Flatten(ids, s.parents)) + AllBlocks(ListsIn(keys, Handled(s.ccs, relevant)))
    ensures RebuiltFrom(s, a)
  {
    forall c
      ensures c in a <==> IsParent(s.parents, c) || exists o :: InConfig(s, o, c)
    {
      FlattenedParents(s.parents, ids, c);
      ListedIffInConfig(s, relevant, keys, c);
    }
  }

  lemma ListedIffInConfig(s: State, relevant: set<string>, keys: seq<Owner>, c: Prefix)
    requires DataOk(s) && relevant <= s.clusters.Keys && Enumerates(keys, Handled(s.ccs, relevant).Keys)
    ensures c in AllBlocks(ListsIn(keys, Handled(s.ccs, relevant))) <==> exists o :: InConfig(s, o, c)
  {
    BlocksOfLists(Handled(s.ccs, relevant), keys, c);
    HandledBlocks(s, relevant, c);
  }

  ghost predicate UnderParent(s: State, c: Prefix) {
    exists p :: IsParent(s.parents, p) && Overlaps(p, c)
  }

  /** The owner's patch list holds two nested blocks that lie under no configured parent. */
  ghost predicate NestedUnparented(s: State, o: Owner) {
    exists c, d ::
      InConfig(s, o, c) && InConfig(s, o, d) && c != d && Overlaps(c, d) && !UnderParent(s, c) && !UnderParent(s, d)
  }

  lemma RestorableMeans(s: State, ids: seq<string>, relevant: set<string>)
    requires DataOk(s) && Enumerates(ids, s.parents.Keys) && relevant <= s.clusters.Keys
    ensures (forall o | o in Handled(s.ccs, relevant) ::
               Restorable(Flatten(ids, s.parents), Handled(s.ccs, relevant)[o]))
       <==> (forall o :: !NestedUnparented(s, o))
  {
    var ps, h := Flatten(ids, s.parents), Handled(s.ccs, relevant);
    forall c
      ensures Under(ps, c) <==> UnderParent(s, c)
    {
      if p :| p in ps && Overlaps(p, c) {
        FlattenedParents(s.parents, ids, p);
      }
      if p :| IsParent(s.parents, p) && Overlaps(p, c) {
        FlattenedParents(s.parents, ids, p);
      }
    }
    forall o
      ensures o in h ==> (Restorable(ps, h[o]) <==> !NestedUnparented(s, o))
      ensures o !in h ==> !NestedUnparented(s, o)
    {
      HandledIsHeld(s, relevant, o);
    }
  }

  lemma RebuildInv(s: State, relevant: set<string>, s': State)
    requires Inv(s) && RebuildStep(s, relevant, s') && UnmatchedCovered(s, relevant)
    ensures Inv(s')
  {
    var r :| RebuildsTo(s, relevant, r) && s' == s.(ipam := if r.Some? then r.value else s.ipam);
    if r.Some? {
      RebuiltForest(s, relevant, r);
      ReadyIsCovered(s, relevant);
      FreshAllocatorInv(s, r.value);
    }
  }

  /** A forest over the parents and the blocks on the patch lists can stand in for the
      allocator, if every recorded block is on a list. */
  lemma FreshAllocatorInv(s: State, a: Allocator)
    requires ParentsOk(s.parents) && DataOk(s) && PlacedOk(s) && OwnersDisjoint(s) && Covered(s)
    requires WellFormed(a) && RebuiltFrom(s, a)
    ensures Inv(s.(ipam := a))
  {
    var s' := s.(ipam := a);
    TreeOfAll(a);
    SameData(s, s');
    forall o, c
      ensures Holds(s', o, c) <==> Holds(s, o, c)
      ensures Holds(s, o, c) ==> InConfig(s, o, c)
    {
    }
    assert Tracked(s', a.Keys);
  }

  // ----- Another configuration -----

  lemma ChangeInv(s: State, parents: map<string, seq<Prefix>>, s': State)
    requires Inv(s) && ChangeStep(s, parents, s') && ConfigFits(s, parents) && ParentsOnTop(s, parents)
    ensures Inv(s')
  {
    var k :| Tracked(s, k);
    SameData(s, s');
    assert forall o, c :: Holds(s', o, c) <==> Holds(s, o, c);
    assert Tracked(s', k);
  }

  lemma RestartInv(s: State, parents: map<string, seq<Prefix>>, relevant: set<string>, s': State)
    requires Inv(s) && RestartStep(s, parents, relevant, s') && ConfigFits(s, parents) && UnmatchedCovered(s, relevant)
    ensures Inv(s')
  {
    RestartData(s, s');
    RestartCovered(s, parents, relevant, s');
    assert PlacedOk(s') && OwnersDisjoint(s');
    RebuiltForest(s', relevant, Some(s'.ipam));
    FreshAllocatorInv(s', s'.ipam);
    assert s'.(ipam := s'.ipam) == s';
  }

  lemma RestartData(s: State, s': State)
    requires DataOk(s) && s'.clusters == s.clusters && s'.ccs == WithoutOrphans(s)
    ensures DataOk(s') && HoldsNoMore(s, s')
  {
    assert forall cl | cl in s.clusters :: ConfigsOf(s', cl) == ConfigsOf(s, cl);
    forall cl | cl in s'.ccs
      ensures ConfigsOk(s'.ccs[cl])
    {
      assert ConfigsOk(s.ccs[cl]);
    }
    forall o, c | InConfig(s', o, c)
      ensures InConfig(s, o, c)
    {
      assert o.cluster in s.clusters;
    }
  }

  lemma RestartCovered(s: State, parents: map<string, seq<Prefix>>, relevant: set<string>, s': State)
    requires DataOk(s) && RestartStep(s, parents, relevant, s') && UnmatchedCovered(s, relevant)
    ensures Covered(s')
  {
    ReadyIsCovered(s, relevant);
    forall o, c | InAnnotation(s', o, c)
      ensures InConfig(s', o, c)
    {
      assert InAnnotation(s, o, c);
      assert InConfig(s, o, c);
    }
  }
}
