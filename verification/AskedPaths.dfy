/** Which paths the injections of a rule ask for, by their two fields, and what becomes of them:
    in the validator, in the path check of a reconcile, and in the record. */
module AskedPaths {
  import opened Prefixes
  import opened GoIpam
  import opened Config
  import opened ConfigValidation
  import opened Patches
  import opened Generation
  import opened GenerationTheorems
  import opened Repair
  import opened InjectionManagement
  import opened PathTheorems

  /** Place -1 is the field for one path, unless that is empty; the others are those of the list. */
  ghost predicate AskedIn(inj: Injection, j: int, p: string) {
    (j == -1 && |inj.path| > 0 && p == inj.path) || (0 <= j < |inj.paths| && p == inj.paths[j])
  }

  ghost predicate AskedAt(injs: seq<Injection>, k: int, j: int, p: string) {
    0 <= k < |injs| && AskedIn(injs[k], j, p)
  }

  /** The paths of an injection are those of both fields, with their multiplicity. */
  lemma GetPathsExact(inj: Injection)
    ensures multiset(GetPaths(inj)) == multiset(inj.paths) + (if |inj.path| > 0 then multiset{inj.path} else multiset{})
    ensures forall p :: p in GetPaths(inj) <==> exists j :: AskedIn(inj, j, p)
  {
    assert AskedIn(inj, -1, inj.path) || |inj.path| == 0;
    assert forall j | 0 <= j < |inj.paths| :: AskedIn(inj, j, inj.paths[j]);
  }

  lemma AllPathsExact(injs: seq<Injection>, p: string)
    ensures p in AllPaths(injs) <==> exists k, j :: AskedAt(injs, k, j, p)
  {
    AllPathsMembers(injs, p);
    if k :| 0 <= k < |injs| && p in GetPaths(injs[k]) {
      GetPathsExact(injs[k]);
      var j :| AskedIn(injs[k], j, p);
      assert AskedAt(injs, k, j, p);
    }
    if k, j :| AskedAt(injs, k, j, p) {
      GetPathsExact(injs[k]);
      assert p in GetPaths(injs[k]);
    }
  }

  // ----- Conversions, place by place -----

  /** No two paths of the injection are converted to the same one. */
  ghost predicate OnceWithin(conv: Conversion, inj: Injection) {
    forall j, i, p, q | AskedIn(inj, j, p) && AskedIn(inj, i, q) && conv(p).Some? && conv(p) == conv(q) :: j == i
  }

  /** Nor are any two paths of the rule. */
  ghost predicate OnceEach(conv: Conversion, injs: seq<Injection>) {
    forall k, j, l, i, p, q | AskedAt(injs, k, j, p) && AskedAt(injs, l, i, q) && conv(p).Some? && conv(p) == conv(q) ::
      k == l && j == i
  }

  lemma {:induction false} ConvertedJoin(conv: Conversion, s: seq<string>, t: seq<string>)
    ensures Converted(conv, s + t) == Converted(conv, s) + Converted(conv, t)
  {
    if t == [] {
      assert s + t == s;
    } else {
      var n := |t| - 1;
      ConvertedJoin(conv, s, t[..n]);
      assert (s + t)[..|s + t| - 1] == s + t[..n];
    }
  }

  lemma {:induction false} ConvertedOnce(conv: Conversion, paths: seq<string>)
    ensures NoDuplicates(Converted(conv, paths)) <==>
      forall i, j | 0 <= i < j < |paths| && conv(paths[i]).Some? :: conv(paths[i]) != conv(paths[j])
  {
    if paths != [] {
      var n := |paths| - 1;
      ConvertedOnce(conv, paths[..n]);
      var last := match conv(paths[n]) case None => [] case Some(p) => [p];
      NoDuplicatesAppend(Converted(conv, paths[..n]), last);
      if conv(paths[n]).Some? {
        ConvertedMembers(conv, paths[..n], conv(paths[n]).value);
      }
      assert forall i | 0 <= i < n :: paths[..n][i] == paths[i];
    }
  }

  lemma OnceInInjection(conv: Conversion, inj: Injection)
    ensures NoDuplicates(Converted(conv, GetPaths(inj))) <==> OnceWithin(conv, inj)
  {
    var paths, first := GetPaths(inj), if |inj.path| > 0 then 1 else 0;
    ConvertedOnce(conv, paths);
    forall i | 0 <= i < |paths|
      ensures AskedIn(inj, i - first, paths[i])
    {
    }
    forall j, p | AskedIn(inj, j, p)
      ensures 0 <= j + first < |paths| && paths[j + first] == p
    {
    }
    if NoDuplicates(Converted(conv, paths)) {
      forall j, i, p, q | AskedIn(inj, j, p) && AskedIn(inj, i, q) && conv(p).Some? && conv(p) == conv(q)
        ensures j == i
      {
        assert paths[j + first] == p && paths[i + first] == q;
      }
    }
    if OnceWithin(conv, inj) {
      forall i, j | 0 <= i < j < |paths| && conv(paths[i]).Some?
        ensures conv(paths[i]) != conv(paths[j])
      {
        assert AskedIn(inj, i - first, paths[i]) && AskedIn(inj, j - first, paths[j]);
      }
    }
  }

  lemma {:induction false} OnceInRule(conv: Conversion, injs: seq<Injection>)
    ensures NoDuplicates(Converted(conv, AllPaths(injs))) <==> OnceEach(conv, injs)
  {
    if injs != [] {
      var n := |injs| - 1;
      OnceInRule(conv, injs[..n]);
      OnceInInjection(conv, injs[n]);
      ConvertedJoin(conv, AllPaths(injs[..n]), GetPaths(injs[n]));
      NoDuplicatesAppend(Converted(conv, AllPaths(injs[..n])), Converted(conv, GetPaths(injs[n])));
      ApartFromEarlier(conv, injs);
      OneInjectionMore(conv, injs);
    }
  }

  /** No path of the last injection is converted to what an earlier one is. */
  ghost predicate LastApart(conv: Conversion, injs: seq<Injection>)
    requires injs != []
  {
    var n := |injs| - 1;
    forall k, j, i, p, q | AskedAt(injs[..n], k, j, p) && AskedIn(injs[n], i, q) && conv(p).Some? :: conv(p) != conv(q)
  }

  lemma ApartFromEarlier(conv: Conversion, injs: seq<Injection>)
    requires injs != []
    ensures var n := |injs| - 1;
      LastApart(conv, injs) <==>
        forall x | x in Converted(conv, GetPaths(injs[n])) :: x !in Converted(conv, AllPaths(injs[..n]))
  {
    var n := |injs| - 1;
    GetPathsExact(injs[n]);
    forall x
      ensures x in Converted(conv, GetPaths(injs[n])) <==> exists i, q :: AskedIn(injs[n], i, q) && conv(q) == Some(x)
      ensures x in Converted(conv, AllPaths(injs[..n])) <==>
        exists k, j, p :: AskedAt(injs[..n], k, j, p) && conv(p) == Some(x)
    {
      ConvertedMembers(conv, GetPaths(injs[n]), x);
      ConvertedFromRule(conv, injs[..n], x);
    }
  }

  lemma ConvertedFromRule(conv: Conversion, injs: seq<Injection>, x: string)
    ensures x in Converted(conv, AllPaths(injs)) <==> exists k, j, p :: AskedAt(injs, k, j, p) && conv(p) == Some(x)
  {
    ConvertedMembers(conv, AllPaths(injs), x);
    forall p
      ensures p in AllPaths(injs) <==> exists k, j :: AskedAt(injs, k, j, p)
    {
      AllPathsExact(injs, p);
    }
  }

  lemma OneInjectionMore(conv: Conversion, injs: seq<Injection>)
    requires injs != []
    ensures var n := |injs| - 1;
      OnceEach(conv, injs) <==> OnceEach(conv, injs[..n]) && OnceWithin(conv, injs[n]) && LastApart(conv, injs)
  {
    var n := |injs| - 1;
    if OnceEach(conv, injs) {
      EachMeansParts(conv, injs);
    }
    if OnceEach(conv, injs[..n]) && OnceWithin(conv, injs[n]) && LastApart(conv, injs) {
      PartsMeanEach(conv, injs);
    }
  }

  lemma EachMeansParts(conv: Conversion, injs: seq<Injection>)
    requires injs != [] && OnceEach(conv, injs)
    ensures var n := |injs| - 1;
      OnceEach(conv, injs[..n]) && OnceWithin(conv, injs[n]) && LastApart(conv, injs)
  {
    var n := |injs| - 1;
    assert forall k, j, p | AskedAt(injs[..n], k, j, p) :: AskedAt(injs, k, j, p);
    assert forall j, p | AskedIn(injs[n], j, p) :: AskedAt(injs, n, j, p);
  }

  lemma PartsMeanEach(conv: Conversion, injs: seq<Injection>)
    requires injs != []
    requires var n := |injs| - 1;
      OnceEach(conv, injs[..n]) && OnceWithin(conv, injs[n]) && LastApart(conv, injs)
    ensures OnceEach(conv, injs)
  {
    var n := |injs| - 1;
    forall k, j, l, i, p, q | AskedAt(injs, k, j, p) && AskedAt(injs, l, i, q) && conv(p).Some? && conv(p) == conv(q)
      ensures k == l && j == i
    {
      assert if k < n then AskedAt(injs[..n], k, j, p) else AskedIn(injs[n], j, p);
      assert if l < n then AskedAt(injs[..n], l, i, q) else AskedIn(injs[n], i, q);
    }
  }

  // ----- The validator -----

  /** Every injection has a path, and no path is asked for at two places. */
  ghost predicate EachPathOnce(injs: seq<Injection>) {
    && (forall k | 0 <= k < |injs| :: |injs[k].path| > 0 || |injs[k].paths| > 0)
    && (forall k, j, l, i, p | AskedAt(injs, k, j, p) && AskedAt(injs, l, i, p) :: k == l && j == i)
  }

  lemma {:induction false} ConvertedToThemselves(paths: seq<string>)
    ensures Converted(Same, paths) == paths
  {
    if paths != [] {
      var n := |paths| - 1;
      ConvertedToThemselves(paths[..n]);
      assert Converted(Same, paths) == paths[..n] + [paths[n]];
      assert paths == paths[..n] + [paths[n]];
    }
  }

  /** What the validator demands of the paths of a rule. */
  lemma AcceptedPaths(injs: seq<Injection>)
    ensures HavePaths(injs) && NoDuplicates(AllPaths(injs)) <==> EachPathOnce(injs)
  {
    OnceInRule(Same, injs);
    ConvertedToThemselves(AllPaths(injs));
    assert OnceEach(Same, injs) <==>
      forall k, j, l, i, p | AskedAt(injs, k, j, p) && AskedAt(injs, l, i, p) :: k == l && j == i;
  }

  // ----- The path check of a reconcile -----

  /** A rule has an issue exactly if two of its paths are converted to the same one, or one to a path
      in use. */
  lemma IssueExact(conv: Conversion, injs: seq<Injection>, injected: set<string>)
    ensures HasIssue(conv, AllPaths(injs), injected) <==>
      !OnceEach(conv, injs) || exists k, j, p :: AskedAt(injs, k, j, p) && conv(p).Some? && conv(p).value in injected
  {
    OnceInRule(conv, injs);
    forall x
      ensures x in Converted(conv, AllPaths(injs)) <==> exists k, j, p :: AskedAt(injs, k, j, p) && conv(p) == Some(x)
    {
      ConvertedFromRule(conv, injs, x);
    }
  }

  /** Some path of the rule is converted to one that an applied rule has. */
  ghost predicate AsksForUsed(conv: Conversion, applied: AppliedRules, injs: seq<Injection>) {
    exists k, j, p :: AskedAt(injs, k, j, p) && conv(p).Some? && exists r: RuleId :: UsedBy(applied, r, conv(p).value)
  }

  /** A rule is skipped exactly if it was applied before, and turned away exactly if it was not and one
      of its id was turned away before, two of its paths are converted to the same one, or one to a path
      that some applied rule has.  In both cases it gets nothing. */
  lemma {:induction false} TurnedAwayIff(ctx: Context, w: Work, rule: Rule, w': Work)
    requires RuleStep(ctx, w, rule, w')
    ensures rule.id in w'.skipped <==> rule.id in w.skipped || rule.id in ctx.applied
    ensures var turned := !OnceEach(ctx.conv, rule.injections) || AsksForUsed(ctx.conv, ctx.applied, rule.injections);
      rule.id in w'.issues <==> rule.id in w.issues || (rule.id !in ctx.applied && turned)
    ensures rule.id in ctx.applied || rule.id in w'.issues ==>
      w'.ipam == w.ipam && w'.annotation == w.annotation && w'.creates == w.creates
  {
    IssueExact(ctx.conv, rule.injections, InjectedPaths(ctx.applied));
    forall p
      ensures p in InjectedPaths(ctx.applied) <==> exists r: RuleId :: UsedBy(ctx.applied, r, p)
    {
      if p in InjectedPaths(ctx.applied) {
        var r :| r in ctx.applied && p in ctx.applied[r];
        assert UsedBy(ctx.applied, r, p);
      }
    }
  }

  predicate UsedBy(applied: AppliedRules, r: RuleId, path: string) {
    r in applied && path in applied[r]
  }

  lemma ConvertibleExact(conv: Conversion, injs: seq<Injection>)
    ensures AllConvertible(conv, AllPaths(injs)) <==> forall k, j, p | AskedAt(injs, k, j, p) :: conv(p).Some?
  {
    forall p
      ensures p in AllPaths(injs) <==> exists k, j :: AskedAt(injs, k, j, p)
    {
      AllPathsExact(injs, p);
    }
  }

  // ----- The record -----

  /** The path at this place of the rule is recorded under this name. */
  ghost predicate RecordedName(conv: Conversion, rule: Rule, k: int, j: int, name: string) {
    exists p :: AskedAt(rule.injections, k, j, p) && name == (if conv(p).Some? then conv(p).value else p)
      && (j >= 0 || |name| > 0)
  }

  /** The last injection with this name. */
  ghost predicate LastWithName(conv: Conversion, rule: Rule, k: int, name: string) {
    && (exists j :: RecordedName(conv, rule, k, j, name))
    && (forall l, j | RecordedName(conv, rule, l, j, name) :: l <= k)
  }

  lemma NamesOfInjection(conv: Conversion, rule: Rule, k: nat, name: string)
    requires k < |rule.injections|
    ensures name in GetPaths(NormRule(conv, rule).injections[k]) <==> exists j :: RecordedName(conv, rule, k, j, name)
  {
    var inj, norm := rule.injections[k], NormRule(conv, rule).injections[k];
    GetPathsExact(norm);
    if j :| AskedIn(norm, j, name) {
      var p := if j == -1 then inj.path else inj.paths[j];
      assert AskedAt(rule.injections, k, j, p);
      assert RecordedName(conv, rule, k, j, name);
    }
    if j :| RecordedName(conv, rule, k, j, name) {
      assert AskedIn(norm, j, name);
    }
  }

  lemma {:induction false} LastBlockStays(injs: seq<Injection>, trace: seq<Pick>, k: nat, name: string)
    requires k < |trace| <= |injs| && name in GetPaths(injs[k])
    requires forall m | k < m < |trace| :: name !in GetPaths(injs[m])
    ensures name in RawAfter(injs, trace) && RawAfter(injs, trace)[name] == trace[k].block
  {
    var n := |trace| - 1;
    if k < n {
      LastBlockStays(injs, trace[..n], k, name);
    }
  }

  /** The record has exactly the paths the rule asks for, converted where that is possible.  Each of
      them has a block of the size that the last injection with this path asks for, and all such paths
      of one injection have the same block. */
  ghost predicate RecordsAsked(conv: Conversion, rule: Rule, record: Injections) {
    && (forall name :: name in record <==> exists k, j :: RecordedName(conv, rule, k, j, name))
    && (forall k, name | LastWithName(conv, rule, k, name) ::
          && 0 <= k < |rule.injections| && name in record && record[name].Block?
          && record[name].cidr.len == rule.injections[k].subnetSize)
    && (forall k, name, other | LastWithName(conv, rule, k, name) && LastWithName(conv, rule, k, other) ::
          name in record && other in record && record[name] == record[other])
  }

  /** A rule that is applied is recorded like that. */
  lemma {:induction false} RecordedExactly(ctx: Context, w: Work, rule: Rule, w': Work)
    requires RuleStep(ctx, w, rule, w') && rule.id !in w.annotation && rule.id in w'.annotation
    ensures RecordsAsked(ctx.conv, rule, w'.annotation[rule.id])
  {
    var trace := TraceOfRecord(ctx, w, rule, w');
    SizesAsked(w.ipam, NormRule(ctx.conv, rule).injections, ctx.parents, trace);
    RecordOfTrace(ctx.conv, rule, trace);
  }

  lemma {:induction false} TraceOfRecord(ctx: Context, w: Work, rule: Rule, w': Work) returns (trace: seq<Pick>)
    requires RuleStep(ctx, w, rule, w') && rule.id !in w.annotation && rule.id in w'.annotation
    ensures |trace| == |rule.injections|
    ensures ValidTrace(w.ipam, NormRule(ctx.conv, rule).injections, ctx.parents, trace)
    ensures w'.annotation[rule.id] == AsInjections(RawAfter(NormRule(ctx.conv, rule).injections, trace))
  {
    var injs := NormRule(ctx.conv, rule).injections;
    var t: seq<Pick>, r :| GenerateSpec(w.ipam, injs, ctx.parents, t, r, w'.ipam) && Recorded(ctx, w, rule, r, w');
    trace := t;
    OfRecorded(ctx, w, rule, r, w');
  }

  lemma {:induction false} OfRecorded(ctx: Context, w: Work, rule: Rule, r: Option<map<string, Prefix>>, w': Work)
    requires Recorded(ctx, w, rule, r, w') && rule.id !in w.annotation && rule.id in w'.annotation
    ensures r.Some? && w'.annotation[rule.id] == AsInjections(r.value)
  {
  }

  lemma {:induction false} RecordOfTrace(conv: Conversion, rule: Rule, trace: seq<Pick>)
    requires |trace| == |rule.injections|
    requires forall k | 0 <= k < |trace| :: trace[k].block.len == rule.injections[k].subnetSize
    ensures RecordsAsked(conv, rule, AsInjections(RawAfter(NormRule(conv, rule).injections, trace)))
  {
    PathsOfTrace(conv, rule, trace);
    forall name
      ensures name in RulePaths(conv, rule) <==> exists k, j :: RecordedName(conv, rule, k, j, name)
    {
      NamesOfRule(conv, rule, name);
    }
    var raw := RawAfter(NormRule(conv, rule).injections, trace);
    forall k, name | LastWithName(conv, rule, k, name)
      ensures 0 <= k < |trace| && name in raw && raw[name] == trace[k].block
    {
      LastNamesBlock(conv, rule, trace, k, name);
    }
  }

  lemma NamesOfRule(conv: Conversion, rule: Rule, name: string)
    ensures name in RulePaths(conv, rule) <==> exists k, j :: RecordedName(conv, rule, k, j, name)
  {
    var injs := NormRule(conv, rule).injections;
    AllPathsMembers(injs, name);
    if k :| 0 <= k < |injs| && name in GetPaths(injs[k]) {
      NamesOfInjection(conv, rule, k, name);
    }
    if k, j :| RecordedName(conv, rule, k, j, name) {
      NamesOfInjection(conv, rule, k, name);
      assert name in GetPaths(injs[k]);
    }
  }

  lemma LastNamesBlock(conv: Conversion, rule: Rule, trace: seq<Pick>, k: int, name: string)
    requires LastWithName(conv, rule, k, name) && |trace| == |rule.injections|
    ensures var raw := RawAfter(NormRule(conv, rule).injections, trace);
      0 <= k < |trace| && name in raw && raw[name] == trace[k].block
  {
    var injs := NormRule(conv, rule).injections;
    forall m | 0 <= m < |injs|
      ensures name in GetPaths(injs[m]) <==> exists j :: RecordedName(conv, rule, m, j, name)
    {
      NamesOfInjection(conv, rule, m, name);
    }
    LastBlockStays(injs, trace, k, name);
  }
}
