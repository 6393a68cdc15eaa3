/** Comparing the ClusterConfigs of one cluster with what the annotation on the cluster
    records, and restoring what is missing. */
module Repair {
  import opened Prefixes
  import opened Config
  import opened Patches

  /** The annotation: rule to path to injected value. */
  type AppliedRules = map<RuleId, Injections>

  type ClusterConfigs = map<RuleId, ClusterConfig>

  datatype Instruction = Instruction(creates: ClusterConfigs, updates: ClusterConfigs)

  predicate HasPath(patches: seq<Patch>, path: string) {
    exists i :: 0 <= i < |patches| && patches[i].path == path
  }

  /** The recorded injections for which the ClusterConfig has no patch. */
  function Missing(injections: Injections, cc: ClusterConfig): Injections {
    map p | p in injections && !HasPath(cc.patches, p) :: injections[p]
  }

  function MissingOf(applied: AppliedRules, ccs: ClusterConfigs, r: RuleId): Injections
    requires r in ccs
  {
    if r in applied then Missing(applied[r], ccs[r]) else map[]
  }

  /** The ClusterConfig with patches for the missing injections appended in some order and
      everything sorted, and with the finalizer unless it is in deletion. */
  ghost predicate Extended(cc: ClusterConfig, missing: Injections, cc': ClusterConfig) {
    exists order :: Enumerates(order, missing.Keys)
      && cc' == ClusterConfig(SortPatches(cc.patches + Listing(order, missing)), cc.finalizer || !cc.deleting,
                              cc.foreign, cc.deleting)
  }

  predicate NeedsCreate(applied: AppliedRules, ccs: ClusterConfigs, r: RuleId) {
    r in applied && r !in ccs && applied[r] != map[]
  }

  predicate NeedsUpdate(applied: AppliedRules, ccs: ClusterConfigs, r: RuleId) {
    r in ccs && (MissingOf(applied, ccs, r) != map[] || (!ccs[r].finalizer && !ccs[r].deleting))
  }

  /** Exactly the incomplete ClusterConfigs are touched, each in the one way that completes it. */
  ghost predicate CheckSpec(applied: AppliedRules, ccs: ClusterConfigs, ins: Instruction) {
    && (forall r :: r in ins.creates <==> NeedsCreate(applied, ccs, r))
    && (forall r :: r in ins.updates <==> NeedsUpdate(applied, ccs, r))
    && (forall r | r in ins.creates :: Generated(applied[r], ins.creates[r]))
    && (forall r | r in ins.updates :: Extended(ccs[r], MissingOf(applied, ccs, r), ins.updates[r]))
  }

  /** The ClusterConfigs after the instruction was carried out. */
  function Apply(ccs: ClusterConfigs, ins: Instruction): ClusterConfigs {
    ccs + ins.creates + ins.updates
  }

  // ----- The code -----

  method FindMissing(applied: AppliedRules, ccs: ClusterConfigs) returns (missing: AppliedRules)
    ensures missing == MissingByRule(applied, ccs)
  {
    missing := map[];
    var todo := applied.Keys;
    while todo != {}
      invariant todo <= applied.Keys
      invariant missing == MissingBut(applied, ccs, todo)
      decreases |todo|
    {
      var r :| r in todo;
      OneMoreMissing(applied, ccs, todo, r);
      todo := todo - {r};
      if r !in ccs {
        missing := missing[r := applied[r]];
      } else {
        var mi := MissingPaths(applied[r], ccs[r]);
        missing := missing[r := mi];
      }
    }
    assert MissingBut(applied, ccs, {}) == MissingByRule(applied, ccs);
  }

  /** What is missing of the rules that have been looked at. */
  function MissingBut(applied: AppliedRules, ccs: ClusterConfigs, todo: set<RuleId>): AppliedRules {
    map r | r in applied && r !in todo :: if r in ccs then Missing(applied[r], ccs[r]) else applied[r]
  }

  lemma OneMoreMissing(applied: AppliedRules, ccs: ClusterConfigs, todo: set<RuleId>, r: RuleId)
    requires r in todo && r in applied
    ensures MissingBut(applied, ccs, todo - {r})
         == MissingBut(applied, ccs, todo)[r := if r in ccs then Missing(applied[r], ccs[r]) else applied[r]]
  {
  }

  method MissingPaths(injections: Injections, cc: ClusterConfig) returns (mi: Injections)
    ensures mi == Missing(injections, cc)
  {
    mi := map[];
    var todo := injections.Keys;
    while todo != {}
      invariant todo <= injections.Keys
      invariant mi == map p | p in injections && p !in todo && !HasPath(cc.patches, p) :: injections[p]
      decreases |todo|
    {
      var path :| path in todo;
      todo := todo - {path};
      var found := false;
      for i := 0 to |cc.patches|
        invariant !found && !HasPath(cc.patches[..i], path)
      {
        if cc.patches[i].path == path {
          found := true;
          break;
        }
        assert cc.patches[..i + 1] == cc.patches[..i] + [cc.patches[i]];
      }
      assert cc.patches[..|cc.patches|] == cc.patches;
      if !found {
        mi := mi[path := injections[path]];
      }
    }
  }

  /** New ClusterConfigs, and copies of existing ones with the missing patches appended. */
  method FillMissing(missing: AppliedRules, ccs: ClusterConfigs) returns (newCCs: ClusterConfigs,
                     updated: ClusterConfigs)
    ensures forall r :: r in newCCs <==> r in missing && r !in ccs && missing[r] != map[]
    ensures forall r :: r in updated <==> r in missing && r in ccs && missing[r] != map[]
    ensures forall r | r in newCCs :: Generated(missing[r], newCCs[r])
    ensures forall r | r in updated :: Appended(ccs[r], missing[r], updated[r])
  {
    newCCs, updated := map[], map[];
    var todo := missing.Keys;
    while todo != {}
      invariant todo <= missing.Keys
      invariant forall r :: r in newCCs <==> r in missing && r !in todo && r !in ccs && missing[r] != map[]
      invariant forall r :: r in updated <==> r in missing && r !in todo && r in ccs && missing[r] != map[]
      invariant forall r | r in newCCs :: Generated(missing[r], newCCs[r])
      invariant forall r | r in updated :: Appended(ccs[r], missing[r], updated[r])
      decreases |todo|
    {
      var r :| r in todo;
      todo := todo - {r};
      if missing[r] == map[] {
        continue;
      }
      if r !in ccs {
        var newCC := GenerateClusterConfig(missing[r]);
        newCCs := newCCs[r := newCC];
      } else {
        var patches := CollectPatches(missing[r], ccs[r].patches);
        updated := updated[r := ccs[r].(patches := patches)];
        assert Appended(ccs[r], missing[r], updated[r]);
      }
    }
  }

  ghost predicate Appended(cc: ClusterConfig, missing: Injections, cc': ClusterConfig) {
    Collected(cc.patches, missing, cc'.patches) && cc' == cc.(patches := cc'.patches)
  }

  method AddFinalizers(updated: ClusterConfigs, ccs: ClusterConfigs) returns (updated': ClusterConfigs)
    requires forall r | r in updated :: r in ccs && updated[r].finalizer == ccs[r].finalizer
    ensures forall r :: r in updated' <==> r in updated || (r in ccs && !ccs[r].finalizer && !ccs[r].deleting)
    ensures forall r | r in updated' ::
      updated'[r] == (if r in updated then updated[r] else ccs[r]).(finalizer := ccs[r].finalizer || !ccs[r].deleting)
  {
    updated' := updated;
    var todo := ccs.Keys;
    while todo != {}
      invariant todo <= ccs.Keys
      invariant forall r :: r in updated' <==>
        r in updated || (r in ccs && r !in todo && !ccs[r].finalizer && !ccs[r].deleting)
      invariant forall r | r in updated' ::
        updated'[r] == (if r in updated then updated[r] else ccs[r]).(
          finalizer := ccs[r].finalizer || (r !in todo && !ccs[r].deleting))
      decreases |todo|
    {
      var r :| r in todo;
      todo := todo - {r};
      if !ccs[r].finalizer && !ccs[r].deleting {
        var cc := if r in updated' then updated'[r] else ccs[r];
        updated' := updated'[r := cc.(finalizer := true)];
      }
    }
  }

  method SortAll(ccs: ClusterConfigs) returns (sorted: ClusterConfigs)
    ensures sorted == map r | r in ccs :: ccs[r].(patches := SortPatches(ccs[r].patches))
  {
    sorted := map[];
    var todo := ccs.Keys;
    while todo != {}
      invariant todo <= ccs.Keys
      invariant sorted == SortedBut(ccs, todo)
      decreases |todo|
    {
      var r :| r in todo;
      OneMoreSorted(ccs, todo, r);
      todo := todo - {r};
      var patches := Sorted(ccs[r].patches);
      sorted := sorted[r := ccs[r].(patches := patches)];
    }
    assert SortedBut(ccs, {}) == map r | r in ccs :: ccs[r].(patches := SortPatches(ccs[r].patches));
  }

  function SortedBut(ccs: ClusterConfigs, todo: set<RuleId>): ClusterConfigs {
    map r | r in ccs && r !in todo :: ccs[r].(patches := SortPatches(ccs[r].patches))
  }

  lemma OneMoreSorted(ccs: ClusterConfigs, todo: set<RuleId>, r: RuleId)
    requires r in todo && r in ccs
    ensures SortedBut(ccs, todo - {r}) == SortedBut(ccs, todo)[r := ccs[r].(patches := SortPatches(ccs[r].patches))]
  {
  }

  method CheckClusterConfigsForCluster(applied: AppliedRules, ccs: ClusterConfigs) returns (ins: Instruction)
    ensures CheckSpec(applied, ccs, ins)
  {
    var missing := FindMissing(applied, ccs);
    var newCCs, appended := FillMissing(missing, ccs);
    var finalized := AddFinalizers(appended, ccs);
    var updated := SortAll(finalized);
    forall r
      ensures r in newCCs <==> NeedsCreate(applied, ccs, r)
    {
    }
    forall r
      ensures r in updated <==> NeedsUpdate(applied, ccs, r)
      ensures r in updated ==> Extended(ccs[r], MissingOf(applied, ccs, r), updated[r])
    {
      UpdatedExactly(applied, ccs, missing, appended, finalized, updated, r);
    }
    ins := Instruction(newCCs, updated);
  }

  function MissingByRule(applied: AppliedRules, ccs: ClusterConfigs): AppliedRules {
    map r | r in applied :: if r in ccs then Missing(applied[r], ccs[r]) else applied[r]
  }

  lemma UpdatedExactly(applied: AppliedRules, ccs: ClusterConfigs, missing: AppliedRules, appended: ClusterConfigs,
                       finalized: ClusterConfigs, updated: ClusterConfigs, r: RuleId)
    requires missing == MissingByRule(applied, ccs)
    requires r in appended <==> r in missing && r in ccs && missing[r] != map[]
    requires r in appended ==> Appended(ccs[r], missing[r], appended[r])
    requires r in finalized <==> r in appended || (r in ccs && !ccs[r].finalizer && !ccs[r].deleting)
    requires r in finalized ==>
      finalized[r] == (if r in appended then appended[r] else ccs[r]).(
        finalizer := ccs[r].finalizer || !ccs[r].deleting)
    requires updated == map q | q in finalized :: finalized[q].(patches := SortPatches(finalized[q].patches))
    ensures r in updated <==> NeedsUpdate(applied, ccs, r)
    ensures r in updated ==> Extended(ccs[r], MissingOf(applied, ccs, r), updated[r])
  {
    if r in updated {
      if r !in appended {
        NothingAppended(ccs[r]);
      }
      SortedIsExtended(ccs[r], MissingOf(applied, ccs, r), if r in appended then appended[r] else ccs[r], updated[r]);
    }
  }

  lemma NothingAppended(cc: ClusterConfig)
    ensures Appended(cc, map[], cc)
  {
    var none: seq<string>, m: Injections := [], map[];
    assert Enumerates(none, m.Keys) && cc.patches + Listing(none, m) == cc.patches;
  }

  lemma SortedIsExtended(cc: ClusterConfig, missing: Injections, mid: ClusterConfig, cc': ClusterConfig)
    requires Appended(cc, missing, mid)
    requires cc' == ClusterConfig(SortPatches(mid.patches), cc.finalizer || !cc.deleting, mid.foreign, mid.deleting)
    ensures Extended(cc, missing, cc')
  {
  }

  // ----- What a repair achieves -----

  /** The patches of the result are those of the ClusterConfig plus one for each injection
      in `added`, ordered by size if the sizes are readable. */
  ghost predicate PatchesAdded(was: seq<Patch>, added: Injections, now: seq<Patch>) {
    exists order :: Enumerates(order, added.Keys) && now == SortPatches(was + Listing(order, added))
  }

  lemma PatchesAddedMembers(was: seq<Patch>, added: Injections, now: seq<Patch>, x: Patch)
    requires PatchesAdded(was, added, now)
    ensures x in now <==> x in was || (x.path in added && x == AddPatch(x.path, added[x.path]))
  {
    var order :| Enumerates(order, added.Keys) && now == SortPatches(was + Listing(order, added));
    assert x in now <==> x in multiset(now);
    var listing := Listing(order, added);
    if x.path in added && x == AddPatch(x.path, added[x.path]) {
      var i :| 0 <= i < |order| && order[i] == x.path;
      assert listing[i] == x;
    }
  }

  lemma PatchesAddedPaths(was: seq<Patch>, added: Injections, now: seq<Patch>, p: string)
    requires PatchesAdded(was, added, now)
    ensures HasPath(now, p) <==> HasPath(was, p) || p in added
  {
    if HasPath(now, p) {
      var i :| 0 <= i < |now| && now[i].path == p;
      PatchesAddedMembers(was, added, now, now[i]);
    }
    if i :| 0 <= i < |was| && was[i].path == p {
      PatchesAddedMembers(was, added, now, was[i]);
    }
    if p in added {
      PatchesAddedMembers(was, added, now, AddPatch(p, added[p]));
    }
  }

  /** What the repaired ClusterConfig of a rule consists of: the patches there were (none if
      it did not exist) and one for each recorded path that had none. */
  lemma RepairedPatches(applied: AppliedRules, ccs: ClusterConfigs, ins: Instruction, r: RuleId)
    requires CheckSpec(applied, ccs, ins) && r in Apply(ccs, ins)
    ensures var was := if r in ccs then ccs[r].patches else [];
      var added := if r in ccs then MissingOf(applied, ccs, r) else applied[r];
      Apply(ccs, ins)[r].patches == was || PatchesAdded(was, added, Apply(ccs, ins)[r].patches)
    ensures !NeedsUpdate(applied, ccs, r) && r in ccs ==> Apply(ccs, ins)[r] == ccs[r]
    ensures NeedsUpdate(applied, ccs, r) || NeedsCreate(applied, ccs, r) ==>
      PatchesAdded(if r in ccs then ccs[r].patches else [],
                   if r in ccs then MissingOf(applied, ccs, r) else applied[r], Apply(ccs, ins)[r].patches)
  {
    if r in ins.updates {
      ExtendedPatches(ccs[r], MissingOf(applied, ccs, r), ins.updates[r]);
    } else if r in ins.creates {
      GeneratedIsAdded(applied[r], ins.creates[r]);
    }
  }

  lemma GeneratedIsAdded(injections: Injections, cc: ClusterConfig)
    requires Generated(injections, cc)
    ensures PatchesAdded([], injections, cc.patches)
  {
    var order :| Enumerates(order, injections.Keys)
      && cc == ClusterConfig(SortPatches(Listing(order, injections)), true, false, false);
    assert [] + Listing(order, injections) == Listing(order, injections);
  }

  lemma ExtendedPatches(cc: ClusterConfig, missing: Injections, cc': ClusterConfig)
    requires Extended(cc, missing, cc')
    ensures PatchesAdded(cc.patches, missing, cc'.patches)
  {
  }

  lemma RepairedHasPath(applied: AppliedRules, ccs: ClusterConfigs, ins: Instruction, r: RuleId, p: string)
    requires CheckSpec(applied, ccs, ins) && r in applied && p in applied[r]
    ensures r in Apply(ccs, ins) && HasPath(Apply(ccs, ins)[r].patches, p)
  {
    assert applied[r] != map[];
    RepairedPatches(applied, ccs, ins, r);
    var was := if r in ccs then ccs[r].patches else [];
    var added := if r in ccs then MissingOf(applied, ccs, r) else applied[r];
    if !HasPath(was, p) {
      assert p in added;
      assert added != map[];
      PatchesAddedPaths(was, added, Apply(ccs, ins)[r].patches, p);
    } else if Apply(ccs, ins)[r].patches != was {
      PatchesAddedPaths(was, added, Apply(ccs, ins)[r].patches, p);
    }
  }

  lemma RepairKeepsPatches(applied: AppliedRules, ccs: ClusterConfigs, ins: Instruction, r: RuleId, x: Patch)
    requires CheckSpec(applied, ccs, ins) && r in ccs && x in ccs[r].patches
    ensures x in Apply(ccs, ins)[r].patches
  {
    RepairedPatches(applied, ccs, ins, r);
    if Apply(ccs, ins)[r].patches != ccs[r].patches {
      PatchesAddedMembers(ccs[r].patches, MissingOf(applied, ccs, r), Apply(ccs, ins)[r].patches, x);
    }
  }

  /** The patch x of rule r was there before, or restores a recorded injection that had no
      patch. */
  ghost predicate OldOrRestored(applied: AppliedRules, ccs: ClusterConfigs, r: RuleId, x: Patch) {
    || (r in ccs && x in ccs[r].patches)
    || (r in applied && x.path in applied[r] && x == AddPatch(x.path, applied[r][x.path])
        && (r in ccs ==> !HasPath(ccs[r].patches, x.path)))
  }

  lemma RepairAddsRecordedOnly(applied: AppliedRules, ccs: ClusterConfigs, ins: Instruction, r: RuleId, x: Patch)
    requires CheckSpec(applied, ccs, ins) && r in Apply(ccs, ins) && x in Apply(ccs, ins)[r].patches
    ensures OldOrRestored(applied, ccs, r, x)
  {
    RepairedPatches(applied, ccs, ins, r);
    var was := if r in ccs then ccs[r].patches else [];
    var added := if r in ccs then MissingOf(applied, ccs, r) else applied[r];
    if Apply(ccs, ins)[r].patches != was {
      PatchesAddedMembers(was, added, Apply(ccs, ins)[r].patches, x);
    }
  }

  lemma RepairRestoresFinalizer(applied: AppliedRules, ccs: ClusterConfigs, ins: Instruction, r: RuleId)
    requires CheckSpec(applied, ccs, ins) && r in Apply(ccs, ins)
    ensures Apply(ccs, ins)[r].finalizer || Apply(ccs, ins)[r].deleting
    ensures r in ccs ==> (Apply(ccs, ins)[r].finalizer <==> ccs[r].finalizer || !ccs[r].deleting)
    ensures r in ccs ==> Apply(ccs, ins)[r].deleting == ccs[r].deleting && Apply(ccs, ins)[r].foreign == ccs[r].foreign
    ensures r !in ccs ==> Apply(ccs, ins)[r].finalizer && !Apply(ccs, ins)[r].deleting && !Apply(ccs, ins)[r].foreign
  {
    if r in ins.updates {
      assert Extended(ccs[r], MissingOf(applied, ccs, r), ins.updates[r]);
    }
  }

  /** After the repair every recorded injection has a patch, every earlier patch is still
      there, every new one carries a recorded value at a path that had none, and every
      ClusterConfig not in deletion holds the finalizer. */
  lemma RepairComplete(applied: AppliedRules, ccs: ClusterConfigs, ins: Instruction)
    requires CheckSpec(applied, ccs, ins)
    ensures forall r, p | r in applied && p in applied[r] ::
      r in Apply(ccs, ins) && HasPath(Apply(ccs, ins)[r].patches, p)
    ensures forall r, x | r in ccs && x in ccs[r].patches :: x in Apply(ccs, ins)[r].patches
    ensures forall r, x | r in Apply(ccs, ins) && x in Apply(ccs, ins)[r].patches :: OldOrRestored(applied, ccs, r, x)
    ensures forall r | r in Apply(ccs, ins) :: Apply(ccs, ins)[r].finalizer || Apply(ccs, ins)[r].deleting
  {
    forall r, p | r in applied && p in applied[r]
      ensures r in Apply(ccs, ins) && HasPath(Apply(ccs, ins)[r].patches, p)
    {
      RepairedHasPath(applied, ccs, ins, r, p);
    }
    forall r, x | r in ccs && x in ccs[r].patches
      ensures x in Apply(ccs, ins)[r].patches
    {
      RepairKeepsPatches(applied, ccs, ins, r, x);
    }
    forall r, x | r in Apply(ccs, ins) && x in Apply(ccs, ins)[r].patches
      ensures OldOrRestored(applied, ccs, r, x)
    {
      RepairAddsRecordedOnly(applied, ccs, ins, r, x);
    }
    forall r | r in Apply(ccs, ins)
      ensures Apply(ccs, ins)[r].finalizer || Apply(ccs, ins)[r].deleting
    {
      RepairRestoresFinalizer(applied, ccs, ins, r);
    }
  }

  /** Every recorded path has a patch. */
  ghost predicate HasAllPaths(applied: AppliedRules, r: RuleId, patches: seq<Patch>) {
    forall p | r in applied && p in applied[r] :: exists x :: x in patches && x.path == p
  }

  /** New are exactly the ClusterConfigs of rules with a recorded path that had none, and one that is
      complete stays as it is. */
  lemma {:induction false} RepairTouchesIncomplete(applied: AppliedRules, ccs: ClusterConfigs, ins: Instruction,
                                                   r: RuleId)
    requires CheckSpec(applied, ccs, ins)
    ensures r in Apply(ccs, ins) <==> r in ccs || (r in applied && exists p :: p in applied[r])
    ensures r in ccs && (ccs[r].finalizer || ccs[r].deleting) && HasAllPaths(applied, r, ccs[r].patches) ==>
      Apply(ccs, ins)[r] == ccs[r]
  {
    if r in ccs && r in applied && HasAllPaths(applied, r, ccs[r].patches) {
      NothingMissing(applied[r], ccs[r]);
    }
  }

  lemma {:induction false} NothingMissing(injections: Injections, cc: ClusterConfig)
    requires forall p | p in injections :: exists x :: x in cc.patches && x.path == p
    ensures Missing(injections, cc) == map[]
  {
    forall p | p in injections
      ensures HasPath(cc.patches, p)
    {
      var x :| x in cc.patches && x.path == p;
      var i :| 0 <= i < |cc.patches| && cc.patches[i] == x;
    }
  }

  /** Nothing is left to repair afterwards. */
  lemma NothingLeft(applied: AppliedRules, ccs: ClusterConfigs, ins: Instruction, r: RuleId)
    requires CheckSpec(applied, ccs, ins)
    ensures !NeedsCreate(applied, Apply(ccs, ins), r) && !NeedsUpdate(applied, Apply(ccs, ins), r)
  {
    if r in Apply(ccs, ins) {
      RepairRestoresFinalizer(applied, ccs, ins, r);
      NothingMissingNow(applied, ccs, ins, r);
    } else if p :| r in applied && p in applied[r] {
      RepairedHasPath(applied, ccs, ins, r, p);
    }
  }

  lemma NothingMissingNow(applied: AppliedRules, ccs: ClusterConfigs, ins: Instruction, r: RuleId)
    requires CheckSpec(applied, ccs, ins) && r in Apply(ccs, ins)
    ensures MissingOf(applied, Apply(ccs, ins), r) == map[]
  {
    if r in applied {
      forall p | p in applied[r]
        ensures p !in Missing(applied[r], Apply(ccs, ins)[r])
      {
        RepairedHasPath(applied, ccs, ins, r, p);
      }
    }
  }

  /** A second check on the repaired ClusterConfigs finds nothing to do. */
  lemma RepairIdempotent(applied: AppliedRules, ccs: ClusterConfigs, ins: Instruction, again: Instruction)
    requires CheckSpec(applied, ccs, ins) && CheckSpec(applied, Apply(ccs, ins), again)
    ensures again == Instruction(map[], map[])
  {
    forall r
      ensures r !in again.creates && r !in again.updates
    {
      NothingLeft(applied, ccs, ins, r);
    }
  }
}
