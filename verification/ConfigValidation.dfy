/** The validating webhook for the configuration.  Its loops fill error lists with the help
    of maps of what was seen before; the theorem is that the list stays empty exactly for
    the configurations described, by quantifiers only, as Accepted. */
module ConfigValidation {
  import opened Prefixes
  import opened Config

  datatype Error =
    | ParentsOverlap(id: string, index: nat, other: Prefix)
    | DuplicateRule(rule: string)
    | DuplicateInjection(id: string)
    | IdOfParent(id: string)
    | PathMissing(index: nat)
    | DuplicatePath(index: nat, path: string, existing: nat)
    | UnknownParent(parent: string)
    | NotSmallerThanInjection(parent: string)
    | NotSmallerThanParent(parent: string)

  // ----- What an accepted configuration is -----

  predicate DisjointSeq(s: seq<Prefix>) {
    forall i, j | 0 <= i < j < |s| :: !Overlaps(s[i], s[j])
  }

  predicate DisjointFrom(s: seq<Prefix>, t: seq<Prefix>) {
    forall i, j | 0 <= i < |s| && 0 <= j < |t| :: !Overlaps(s[i], t[j])
  }

  /** No two entries of the parent lists overlap, within one list or across lists. */
  predicate ParentsDisjoint(parents: map<string, seq<Prefix>>) {
    && (forall id | id in parents :: DisjointSeq(parents[id]))
    && (forall a, b | a in parents && b in parents && a != b :: DisjointFrom(parents[a], parents[b]))
  }

  predicate Names(inj: Injection, name: string) {
    inj.id == name && name != ""
  }

  predicate AllLarger(cidrs: seq<Prefix>, len: nat) {
    0 < len && forall k | 0 <= k < |cidrs| :: cidrs[k].len < len
  }

  /** The injection at i may use the named parent: it is a global parent or an earlier
      injection, and every block it can stand for is strictly larger than what i asks for. */
  predicate ParentUsable(injs: seq<Injection>, parents: map<string, seq<Prefix>>, i: nat, name: string)
    requires i < |injs|
  {
    && (name in parents || exists j | 0 <= j < i :: Names(injs[j], name))
    && (forall j | 0 <= j < i && Names(injs[j], name) :: injs[j].subnetSize < injs[i].subnetSize)
    && (name in parents ==> AllLarger(parents[name], injs[i].subnetSize))
  }

  predicate IdsUnique(injs: seq<Injection>) {
    forall i, j | 0 <= i < j < |injs| && injs[i].id != "" :: injs[i].id != injs[j].id
  }

  predicate IdsNotOfParents(injs: seq<Injection>, parents: map<string, seq<Prefix>>) {
    forall i | 0 <= i < |injs| && injs[i].id != "" :: injs[i].id !in parents
  }

  predicate HavePaths(injs: seq<Injection>) {
    forall i | 0 <= i < |injs| :: GetPaths(injs[i]) != []
  }

  predicate ParentsUsable(injs: seq<Injection>, parents: map<string, seq<Prefix>>) {
    forall i | 0 <= i < |injs| :: forall name | name in injs[i].parents :: ParentUsable(injs, parents, i, name)
  }

  predicate InjectionsAccepted(injs: seq<Injection>, parents: map<string, seq<Prefix>>) {
    && IdsUnique(injs)
    && IdsNotOfParents(injs, parents)
    && HavePaths(injs)
    && NoDuplicates(AllPaths(injs))
    && ParentsUsable(injs, parents)
  }

  predicate RulesAccepted(rules: seq<Rule>, parents: map<string, seq<Prefix>>) {
    && (forall i, j | 0 <= i < j < |rules| :: rules[i].id != rules[j].id)
    && (forall i | 0 <= i < |rules| :: InjectionsAccepted(rules[i].injections, parents))
  }

  predicate Accepted(spec: Spec) {
    ParentsDisjoint(spec.parentCIDRs) && RulesAccepted(spec.injectionRules, spec.parentCIDRs)
  }

  // ----- The validator -----

  lemma SmallestStep(cidrs: seq<Prefix>)
    requires cidrs != []
    ensures forall n: nat :: AllLarger(cidrs, n) <==> AllLarger(cidrs[..|cidrs| - 1], n) && cidrs[|cidrs| - 1].len < n
  {
    forall n: nat
      ensures AllLarger(cidrs, n) <==> AllLarger(cidrs[..|cidrs| - 1], n) && cidrs[|cidrs| - 1].len < n
    {
      assert forall k | 0 <= k < |cidrs| - 1 :: cidrs[k] == cidrs[..|cidrs| - 1][k];
    }
  }

  /** The largest mask length in the list, 0 for an empty list. */
  function Smallest(cidrs: seq<Prefix>): (r: nat)
    ensures forall n: nat :: AllLarger(cidrs, n) <==> r < n
  {
    if cidrs == [] then 0
    else
      var rest := Smallest(cidrs[..|cidrs| - 1]);
      var last := cidrs[|cidrs| - 1].len;
      assert forall n: nat :: AllLarger(cidrs, n) <==> AllLarger(cidrs[..|cidrs| - 1], n) && last < n by {
        SmallestStep(cidrs);
      }
      if last > rest then last else rest
  }

  /** Per parent identifier, the mask length every child must exceed. */
  function Sizes(parents: map<string, seq<Prefix>>): map<string, nat> {
    map id | id in parents :: Smallest(parents[id])
  }

  method ValidateSpec(spec: Spec) returns (errs: seq<Error>)
    ensures errs == [] <==> Accepted(spec)
  {
    var sizes: map<string, nat> := map[];
    var todo := spec.parentCIDRs.Keys;
    while todo != {}
      invariant todo <= spec.parentCIDRs.Keys
      invariant sizes == map id | id in spec.parentCIDRs && id !in todo :: Smallest(spec.parentCIDRs[id])
      decreases |todo|
    {
      var id :| id in todo;
      todo := todo - {id};
      var smallest := SmallestOf(spec.parentCIDRs[id]);
      sizes := sizes[id := smallest];
    }
    assert sizes == Sizes(spec.parentCIDRs);
    var parentErrs := ValidateParentCIDRs(spec.parentCIDRs);
    var ruleErrs := ValidateInjectionRules(spec.injectionRules, spec.parentCIDRs, sizes);
    errs := parentErrs + ruleErrs;
  }

  method SmallestOf(cidrs: seq<Prefix>) returns (smallest: nat)
    ensures smallest == Smallest(cidrs)
  {
    smallest := 0;
    for i := 0 to |cidrs|
      invariant smallest == Smallest(cidrs[..i])
    {
      assert cidrs[..i + 1][..i] == cidrs[..i];
      if cidrs[i].len > smallest {
        smallest := cidrs[i].len;
      }
    }
    assert cidrs[..|cidrs|] == cidrs;
  }

  lemma DisjointAppend(s: seq<Prefix>, t: seq<Prefix>)
    ensures DisjointSeq(s + t) <==> DisjointSeq(s) && DisjointSeq(t) && DisjointFrom(s, t)
  {
    var u := s + t;
    assert forall i | 0 <= i < |s| :: u[i] == s[i];
    assert forall j | 0 <= j < |t| :: u[|s| + j] == t[j];
    if DisjointSeq(u) {
      forall i, j | 0 <= i < |s| && 0 <= j < |t|
        ensures !Overlaps(s[i], t[j])
      {
        assert !Overlaps(u[i], u[|s| + j]);
      }
      forall i, j | 0 <= i < j < |t|
        ensures !Overlaps(t[i], t[j])
      {
        assert !Overlaps(u[|s| + i], u[|s| + j]);
      }
    }
  }

  ghost predicate DisjointKeys(keys: set<string>, parents: map<string, seq<Prefix>>) {
    && (forall id | id in keys && id in parents :: DisjointSeq(parents[id]))
    && (forall a, b | a in keys && b in keys && a in parents && b in parents && a != b ::
          DisjointFrom(parents[a], parents[b]))
  }

  lemma DisjointOneMore(keys: set<string>, id: string, parents: map<string, seq<Prefix>>, flat: seq<Prefix>)
    requires id in parents && id !in keys && keys <= parents.Keys
    requires DisjointSeq(flat) <==> DisjointKeys(keys, parents)
    requires FlatMembers(flat, keys, parents)
    ensures DisjointSeq(flat + parents[id]) <==> DisjointKeys(keys + {id}, parents)
    ensures FlatMembers(flat + parents[id], keys + {id}, parents)
  {
    DisjointAppend(flat, parents[id]);
    CrossDisjoint(keys, id, parents, flat);
  }

  lemma CrossDisjoint(keys: set<string>, id: string, parents: map<string, seq<Prefix>>, flat: seq<Prefix>)
    requires id in parents && keys <= parents.Keys && FlatMembers(flat, keys, parents)
    ensures DisjointFrom(flat, parents[id]) <==>
      forall k | k in keys :: DisjointFrom(parents[k], parents[id]) && DisjointFrom(parents[id], parents[k])
  {
    if forall k | k in keys :: DisjointFrom(parents[k], parents[id]) {
      forall i, j | 0 <= i < |flat| && 0 <= j < |parents[id]|
        ensures !Overlaps(flat[i], parents[id][j])
      {
        assert flat[i] in flat;
        var k :| k in keys && flat[i] in parents[k];
        assert DisjointFrom(parents[k], parents[id]);
      }
    }
    if DisjointFrom(flat, parents[id]) {
      forall k, i, j | k in keys && 0 <= i < |parents[k]| && 0 <= j < |parents[id]|
        ensures !Overlaps(parents[k][i], parents[id][j])
      {
        assert parents[k][i] in parents[k];
        assert parents[k][i] in flat;
      }
    }
  }

  ghost predicate FlatMembers(flat: seq<Prefix>, keys: set<string>, parents: map<string, seq<Prefix>>) {
    forall p :: p in flat <==> exists k :: k in keys && k in parents && p in parents[k]
  }

  method ValidateParentCIDRs(parents: map<string, seq<Prefix>>) returns (errs: seq<Error>)
    ensures errs == [] <==> ParentsDisjoint(parents)
  {
    errs := [];
    var seen: map<Prefix, seq<string>> := map[];
    var todo := parents.Keys;
    ghost var flat: seq<Prefix>, done: set<string> := [], {};
    while todo != {}
      invariant done !! todo && done + todo == parents.Keys
      invariant errs == [] <==> DisjointSeq(flat)
      invariant DisjointSeq(flat) <==> DisjointKeys(done, parents)
      invariant FlatMembers(flat, done, parents)
      invariant forall p :: p in seen <==> p in flat
      decreases |todo|
    {
      var id :| id in todo;
      DisjointOneMore(done, id, parents, flat);
      todo, done := todo - {id}, done + {id};
      var more;
      more, seen := CheckParentList(id, parents[id], seen, flat);
      errs := errs + more;
      flat := flat + parents[id];
    }
    AllKeysDisjoint(parents);
  }

  lemma AllKeysDisjoint(parents: map<string, seq<Prefix>>)
    ensures DisjointKeys(parents.Keys, parents) <==> ParentsDisjoint(parents)
  {
  }

  method CheckParentList(id: string, cidrs: seq<Prefix>, seen: map<Prefix, seq<string>>, ghost flat: seq<Prefix>)
      returns (errs: seq<Error>, seen': map<Prefix, seq<string>>)
    requires forall p :: p in seen <==> p in flat
    ensures DisjointSeq(flat + cidrs) <==> DisjointSeq(flat) && errs == []
    ensures forall p :: p in seen' <==> p in flat + cidrs
  {
    errs, seen' := [], seen;
    ghost var done := flat;
    assert flat + [] == flat;
    for i := 0 to |cidrs|
      invariant done == flat + cidrs[..i]
      invariant DisjointSeq(done) <==> DisjointSeq(flat) && errs == []
      invariant forall p :: p in seen' <==> p in done
    {
      var cidr := cidrs[i];
      var clashes := OverlapsWithSeen(id, i, cidr, seen'.Keys);
      errs := errs + clashes;
      DisjointAppendOne(done, cidr);
      done := done + [cidr];
      seen' := seen'[cidr := (if cidr in seen' then seen'[cidr] else []) + [id]];
    }
    assert cidrs[..|cidrs|] == cidrs;
  }

  lemma DisjointAppendOne(s: seq<Prefix>, p: Prefix)
    ensures DisjointSeq(s + [p]) <==> DisjointSeq(s) && forall q | q in s :: !Overlaps(q, p)
  {
    DisjointAppend(s, [p]);
    if forall q | q in s :: !Overlaps(q, p) {
      assert DisjointFrom(s, [p]);
    }
    if DisjointFrom(s, [p]) {
      forall q | q in s
        ensures !Overlaps(q, p)
      {
        var i :| 0 <= i < |s| && s[i] == q;
        assert !Overlaps(s[i], [p][0]);
      }
    }
  }

  method OverlapsWithSeen(id: string, i: nat, cidr: Prefix, seen: set<Prefix>) returns (errs: seq<Error>)
    ensures errs == [] <==> forall other | other in seen :: !Overlaps(other, cidr)
  {
    errs := [];
    var todo := seen;
    while todo != {}
      invariant todo <= seen
      invariant errs == [] <==> forall other | other in seen - todo :: !Overlaps(other, cidr)
      decreases |todo|
    {
      var other :| other in todo;
      assert seen - (todo - {other}) == seen - todo + {other};
      todo := todo - {other};
      if Overlaps(other, cidr) {
        errs := errs + [ParentsOverlap(id, i, other)];
      }
    }
  }

  method ValidateInjectionRules(rules: seq<Rule>, ghost parents: map<string, seq<Prefix>>, sizes: map<string, nat>)
      returns (errs: seq<Error>)
    requires sizes == Sizes(parents)
    ensures errs == [] <==> RulesAccepted(rules, parents)
  {
    errs := [];
    var known: set<string> := {};
    for i := 0 to |rules|
      invariant errs == [] <==> RulesAccepted(rules[..i], parents)
      invariant forall id :: id in known <==> exists j :: 0 <= j < i && rules[j].id == id
    {
      if rules[i].id in known {
        errs := errs + [DuplicateRule(rules[i].id)];
      }
      known := known + {rules[i].id};
      var more := ValidateInjections(rules[i].injections, parents, sizes);
      errs := errs + more;
    }
    assert rules[..|rules|] == rules;
  }

  /** What the maps built so far say about the injection with index |before|. */
  predicate StepAccepted(before: seq<Injection>, inj: Injection, parents: map<string, seq<Prefix>>) {
    && (inj.id != "" ==> forall j | 0 <= j < |before| :: before[j].id != inj.id)
    && (inj.id != "" ==> inj.id !in parents)
    && GetPaths(inj) != []
    && NoDuplicates(GetPaths(inj))
    && (forall p | p in GetPaths(inj) :: p !in AllPaths(before))
    && (forall name | name in inj.parents :: ParentUsable(before + [inj], parents, |before|, name))
  }

  lemma NoDuplicatesAppend<T>(s: seq<T>, t: seq<T>)
    ensures NoDuplicates(s + t) <==> NoDuplicates(s) && NoDuplicates(t) && forall x | x in t :: x !in s
  {
    var u := s + t;
    assert forall i | 0 <= i < |s| :: u[i] == s[i];
    assert forall j | 0 <= j < |t| :: u[|s| + j] == t[j];
    if NoDuplicates(s) && NoDuplicates(t) && forall x | x in t :: x !in s {
      forall i, j | 0 <= i < j < |u|
        ensures u[i] != u[j]
      {
        assert j >= |s| ==> u[j] == t[j - |s|] && u[j] in t;
        assert i >= |s| ==> u[i] == t[i - |s|];
        assert i < |s| ==> u[i] in s;
      }
    }
    if NoDuplicates(u) {
      forall i, j | 0 <= i < |s| && 0 <= j < |t|
        ensures s[i] != t[j]
      {
        assert u[i] != u[|s| + j];
      }
      forall i, j | 0 <= i < j < |t|
        ensures t[i] != t[j]
      {
        assert u[|s| + i] != u[|s| + j];
      }
    }
  }

  lemma ParentUsableFrame(injs: seq<Injection>, more: seq<Injection>, parents: map<string, seq<Prefix>>, i: nat,
                          name: string)
    requires i < |injs|
    ensures ParentUsable(injs, parents, i, name) <==> ParentUsable(injs + more, parents, i, name)
  {
    assert forall j | 0 <= j <= i :: (injs + more)[j] == injs[j];
  }

  lemma AcceptedStep(before: seq<Injection>, inj: Injection, parents: map<string, seq<Prefix>>)
    ensures InjectionsAccepted(before + [inj], parents)
      <==> (InjectionsAccepted(before, parents) && StepAccepted(before, inj, parents))
  {
    var injs := before + [inj];
    assert injs[..|before|] == before;
    assert AllPaths(injs) == AllPaths(before) + GetPaths(inj);
    NoDuplicatesAppend(AllPaths(before), GetPaths(inj));
    IdsAcceptedStep(before, inj, parents);
    ParentsAcceptedStep(before, inj, parents);
  }

  lemma IdsAcceptedStep(before: seq<Injection>, inj: Injection, parents: map<string, seq<Prefix>>)
    ensures IdsUnique(before + [inj])
      <==> (IdsUnique(before) && (inj.id != "" ==> forall j | 0 <= j < |before| :: before[j].id != inj.id))
    ensures IdsNotOfParents(before + [inj], parents)
      <==> (IdsNotOfParents(before, parents) && (inj.id != "" ==> inj.id !in parents))
    ensures HavePaths(before + [inj]) <==> (HavePaths(before) && GetPaths(inj) != [])
  {
    var injs := before + [inj];
    assert forall i | 0 <= i < |before| :: before[i] == injs[i];
    assert injs[|before|] == inj;
  }

  lemma ParentsAcceptedStep(before: seq<Injection>, inj: Injection, parents: map<string, seq<Prefix>>)
    ensures ParentsUsable(before + [inj], parents)
      <==> (ParentsUsable(before, parents)
            && (forall name | name in inj.parents :: ParentUsable(before + [inj], parents, |before|, name)))
  {
    var injs := before + [inj];
    forall i, name | 0 <= i < |before|
      ensures injs[i] == before[i] && (ParentUsable(injs, parents, i, name) <==> ParentUsable(before, parents, i, name))
    {
      ParentUsableFrame(before, [inj], parents, i, name);
    }
    assert injs[|before|] == inj;
    if ParentsUsable(injs, parents) {
      forall i, name | 0 <= i < |before| && name in before[i].parents
        ensures ParentUsable(before, parents, i, name)
      {
        assert name in injs[i].parents;
      }
    }
  }

  method ValidateInjections(injs: seq<Injection>, ghost parents: map<string, seq<Prefix>>, sizes: map<string, nat>)
      returns (errs: seq<Error>)
    requires sizes == Sizes(parents)
    ensures errs == [] <==> InjectionsAccepted(injs, parents)
  {
    errs := [];
    var tmpIDsToSizes: map<string, nat> := map[];
    var pathsToIndices: map<string, nat> := map[];
    for i := 0 to |injs|
      invariant errs == [] <==> InjectionsAccepted(injs[..i], parents)
      invariant errs == [] ==> SizesRecorded(tmpIDsToSizes, injs[..i])
      invariant IdsRecorded(tmpIDsToSizes, injs[..i])
      invariant forall p :: p in pathsToIndices <==> p in AllPaths(injs[..i])
    {
      var more;
      more, tmpIDsToSizes, pathsToIndices := ValidateInjection(injs[i], i, injs[..i], parents, sizes, tmpIDsToSizes,
                                                               pathsToIndices);
      AcceptedStep(injs[..i], injs[i], parents);
      InitGrows(injs, i);
      errs := errs + more;
    }
    assert injs[..|injs|] == injs;
  }

  lemma InitGrows<T>(s: seq<T>, i: nat)
    requires i < |s|
    ensures s[..i + 1] == s[..i] + [s[i]]
  {
  }

  method ValidateInjection(inj: Injection, i: nat, ghost before: seq<Injection>,
                           ghost parents: map<string, seq<Prefix>>,
                           sizes: map<string, nat>, tmp: map<string, nat>, seen: map<string, nat>)
      returns (errs: seq<Error>, tmp': map<string, nat>, seen': map<string, nat>)
    requires sizes == Sizes(parents)
    requires IdsRecorded(tmp, before) && forall p :: p in seen <==> p in AllPaths(before)
    ensures SizesRecorded(tmp, before) ==> (errs == [] <==> StepAccepted(before, inj, parents))
    ensures SizesRecorded(tmp, before) && errs == [] ==> SizesRecorded(tmp', before + [inj])
    ensures IdsRecorded(tmp', before + [inj]) && forall p :: p in seen' <==> p in AllPaths(before + [inj])
  {
    errs, tmp' := [], tmp;
    if inj.id != "" {
      if inj.id in tmp' {
        errs := errs + [DuplicateInjection(inj.id)];
      }
      tmp' := tmp'[inj.id := inj.subnetSize];
      if inj.id in sizes {
        errs := errs + [IdOfParent(inj.id)];
      }
    }
    if |GetPaths(inj)| == 0 {
      errs := errs + [PathMissing(i)];
    }
    RecordOne(tmp, before, inj);
    if SizesRecorded(tmp, before) && errs == [] {
      ParentsMeanTheSame(before, inj, parents, tmp');
    }
    var pathErrs, parentErrs;
    pathErrs, seen' := CheckPaths(inj, i, seen);
    parentErrs := CheckParents(inj, sizes, tmp');
    errs := errs + pathErrs + parentErrs;
    assert (before + [inj])[..|before|] == before;
    assert AllPaths(before + [inj]) == AllPaths(before) + GetPaths(inj);
  }

  ghost predicate IdsRecorded(tmp: map<string, nat>, injs: seq<Injection>) {
    forall id :: id in tmp <==> exists j :: 0 <= j < |injs| && Names(injs[j], id)
  }

  lemma RecordOne(tmp: map<string, nat>, before: seq<Injection>, inj: Injection)
    requires IdsRecorded(tmp, before)
    ensures inj.id != "" ==> (inj.id in tmp <==> !forall j | 0 <= j < |before| :: before[j].id != inj.id)
    ensures var after := if inj.id != "" then tmp[inj.id := inj.subnetSize] else tmp;
      IdsRecorded(after, before + [inj])
        && (SizesRecorded(tmp, before) && inj.id !in tmp ==> SizesRecorded(after, before + [inj]))
  {
    var injs := before + [inj];
    var after := if inj.id != "" then tmp[inj.id := inj.subnetSize] else tmp;
    assert injs[|before|] == inj;
    assert inj.id != "" ==> Names(injs[|before|], inj.id);
    assert forall j | 0 <= j < |before| :: injs[j] == before[j];
    if inj.id != "" && inj.id !in tmp {
      forall j | 0 <= j < |before|
        ensures before[j].id != inj.id
      {
        assert !Names(before[j], inj.id);
      }
    }
    forall j | 0 <= j < |before| && before[j].id != ""
      ensures before[j].id in tmp
    {
      assert Names(before[j], before[j].id);
    }
  }

  ghost predicate SizesRecorded(tmp: map<string, nat>, injs: seq<Injection>) {
    forall j | 0 <= j < |injs| && injs[j].id != "" :: injs[j].id in tmp && tmp[injs[j].id] == injs[j].subnetSize
  }

  predicate ParentAllowed(inj: Injection, sizes: map<string, nat>, tmp: map<string, nat>, name: string) {
    && (name in sizes || name in tmp)
    && (name in tmp ==> tmp[name] < inj.subnetSize)
    && (name in sizes ==> sizes[name] < inj.subnetSize)
  }

  /** With unique identifiers the lookup in the two maps decides ParentUsable, an injection
      naming itself being turned away by the size comparison. */
  lemma ParentsMeanTheSame(before: seq<Injection>, inj: Injection, parents: map<string, seq<Prefix>>,
                           tmp: map<string, nat>)
    requires SizesRecorded(tmp, before + [inj])
    requires IdsRecorded(tmp, before + [inj])
    requires inj.id != "" ==> inj.id !in parents && forall j | 0 <= j < |before| :: before[j].id != inj.id
    ensures (forall name | name in inj.parents :: ParentAllowed(inj, Sizes(parents), tmp, name))
      <==> (forall name | name in inj.parents :: ParentUsable(before + [inj], parents, |before|, name))
  {
    var injs := before + [inj];
    forall name | name in inj.parents
      ensures ParentAllowed(inj, Sizes(parents), tmp, name) <==> ParentUsable(injs, parents, |before|, name)
    {
      assert injs[|before|] == inj;
      assert name in parents ==> (AllLarger(parents[name], inj.subnetSize) <==> Sizes(parents)[name] < inj.subnetSize);
      forall j | 0 <= j < |before| && Names(injs[j], name)
        ensures name in tmp && tmp[name] == injs[j].subnetSize
      {
      }
      if name in tmp {
        var j :| 0 <= j < |injs| && Names(injs[j], name);
        assert tmp[name] == injs[j].subnetSize;
        assert j == |before| <==> Names(inj, name);
      }
    }
  }

  method CheckPaths(inj: Injection, index: nat, seen: map<string, nat>) returns (errs: seq<Error>,
                    seen': map<string, nat>)
    ensures errs == [] <==> NoDuplicates(GetPaths(inj)) && forall p | p in GetPaths(inj) :: p !in seen
    ensures forall p :: p in seen' <==> p in seen || p in GetPaths(inj)
  {
    errs, seen' := [], seen;
    ghost var done: seq<string> := [];
    if inj.path != "" {
      if inj.path in seen' {
        errs := errs + [DuplicatePath(index, inj.path, seen'[inj.path])];
      } else {
        seen' := seen'[inj.path := index];
      }
      done := [inj.path];
    }
    ghost var first := done;
    for j := 0 to |inj.paths|
      invariant done == first + inj.paths[..j]
      invariant errs == [] <==> NoDuplicates(done) && forall p | p in done :: p !in seen
      invariant forall p :: p in seen' <==> p in seen || p in done
    {
      var path := inj.paths[j];
      NoDuplicatesAppend(done, [path]);
      if path in seen' {
        errs := errs + [DuplicatePath(index, path, seen'[path])];
      } else {
        seen' := seen'[path := index];
      }
      done := done + [path];
    }
    assert inj.paths[..|inj.paths|] == inj.paths;
    assert done == GetPaths(inj);
  }

  method CheckParents(inj: Injection, sizes: map<string, nat>, tmp: map<string, nat>) returns (errs: seq<Error>)
    ensures errs == [] <==> forall name | name in inj.parents :: ParentAllowed(inj, sizes, tmp, name)
  {
    errs := [];
    for j := 0 to |inj.parents|
      invariant errs == [] <==> forall k | 0 <= k < j :: ParentAllowed(inj, sizes, tmp, inj.parents[k])
    {
      var parent := inj.parents[j];
      if parent !in sizes && parent !in tmp {
        errs := errs + [UnknownParent(parent)];
      } else {
        if parent in tmp && inj.subnetSize <= tmp[parent] {
          errs := errs + [NotSmallerThanInjection(parent)];
        }
        if parent in sizes && inj.subnetSize <= sizes[parent] {
          errs := errs + [NotSmallerThanParent(parent)];
        }
      }
    }
  }
}
