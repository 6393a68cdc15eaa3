/** What a configuration that the webhook accepts means for reconciles and runs. */
module AcceptedRules {
  import opened Prefixes
  import opened Forest
  import opened GoIpam
  import opened Config
  import opened ConfigValidation
  import opened Patches
  import opened Generation
  import opened GenerationTheorems
  import opened InjectionManagement
  import opened InjectionTheorems
  import opened PathTheorems
  import opened System

  /** Normalising the paths of a rule leaves ids, parents and sizes alone. */
  lemma NormalizedParentsUsable(conv: Conversion, rule: Rule, parents: map<string, seq<Prefix>>)
    requires ParentsUsable(rule.injections, parents)
    ensures ParentsUsable(NormRule(conv, rule).injections, parents)
  {
    var injs, norm := rule.injections, NormRule(conv, rule).injections;
    forall i, name | 0 <= i < |norm| && name in norm[i].parents
      ensures ParentUsable(norm, parents, i, name)
    {
      assert ParentUsable(injs, parents, i, name);
      if name !in parents {
        var j :| 0 <= j < i && Names(injs[j], name);
        assert Names(norm[j], name);
      }
      assert forall j | 0 <= j < i && Names(norm[j], name) :: Names(injs[j], name);
    }
  }

  /** After the picks in `done`: every parent the next injection names is known, and every
      candidate it is tried on is strictly larger than the block asked for. */
  ghost predicate WellAsked(a: Allocator, injs: seq<Injection>, parents: map<string, seq<Prefix>>, done: seq<Pick>)
    requires |done| < |injs|
  {
    var ids, locals := injs[|done|].parents, LocalsAfter(injs, done);
    && (forall id | id in ids :: id in locals || id in parents)
    && (forall p | p in CandidatesFor(ids, locals, parents, StateAfter(a, done)) :: p.len < injs[|done|].subnetSize)
  }

  ghost predicate AlwaysWellAsked(a: Allocator, injs: seq<Injection>, parents: map<string, seq<Prefix>>,
                                  trace: seq<Pick>) {
    forall k | 0 <= k <= |trace| && k < |injs| && injs[k].parents != [] :: WellAsked(a, injs, parents, trace[..k])
  }

  lemma {:induction false} ValidPrefix(a: Allocator, injs: seq<Injection>, parents: map<string, seq<Prefix>>,
                                       trace: seq<Pick>, k: nat)
    requires k <= |trace| <= |injs| && ValidTrace(a, injs, parents, trace)
    ensures ValidTrace(a, injs, parents, trace[..k])
    decreases |trace|
  {
    if k == |trace| {
      assert trace[..k] == trace;
    } else {
      ValidPrefix(a, injs, parents, trace[..|trace| - 1], k);
      assert trace[..|trace| - 1][..k] == trace[..k];
    }
  }

  lemma UsableIsWellAsked(a: Allocator, injs: seq<Injection>, parents: map<string, seq<Prefix>>, trace: seq<Pick>)
    requires ParentsUsable(injs, parents) && |trace| <= |injs| && ValidTrace(a, injs, parents, trace)
    ensures AlwaysWellAsked(a, injs, parents, trace)
  {
    forall k | 0 <= k <= |trace| && k < |injs| && injs[k].parents != []
      ensures WellAsked(a, injs, parents, trace[..k])
    {
      ValidPrefix(a, injs, parents, trace, k);
      AcceptedMeansWellFormed(a, injs, parents, trace[..k], injs[k].parents);
    }
  }

  ghost predicate AppliedWellAsked(ctx: Context, w: Work, rule: Rule, trace: seq<Pick>,
                                   r: Option<map<string, Prefix>>, w': Work) {
    && GenerateSpec(w.ipam, NormRule(ctx.conv, rule).injections, ctx.parents, trace, r, w'.ipam)
    && Recorded(ctx, w, rule, r, w')
    && AlwaysWellAsked(w.ipam, NormRule(ctx.conv, rule).injections, ctx.parents, trace)
  }

  /** Applying a rule of an accepted configuration: for every injection that names its parents,
      no parent is unknown, and every acquisition asks for a strictly longer length than the
      candidate's. */
  lemma AcceptedRuleIsWellAsked(spec: Spec, ctx: Context, w: Work, rule: Rule, w': Work)
    requires Accepted(spec) && rule in spec.injectionRules && ctx.parents == spec.parentCIDRs
    requires RuleStep(ctx, w, rule, w') && Applicable(ctx, rule) && rule.id !in w.issues
    ensures exists trace, r :: AppliedWellAsked(ctx, w, rule, trace, r, w')
  {
    var injs := NormRule(ctx.conv, rule).injections;
    var trace, r :| GenerateSpec(w.ipam, injs, ctx.parents, trace, r, w'.ipam)
      && Recorded(ctx, w, rule, r, w');
    var i :| 0 <= i < |spec.injectionRules| && spec.injectionRules[i] == rule;
    assert InjectionsAccepted(spec.injectionRules[i].injections, spec.parentCIDRs);
    NormalizedParentsUsable(ctx.conv, rule, ctx.parents);
    UsableIsWellAsked(w.ipam, injs, ctx.parents, trace);
    assert AppliedWellAsked(ctx, w, rule, trace, r, w');
  }

  /** The configurations and rules the state machine works with include all accepted ones. */
  lemma AcceptedConfigRuns(spec: Spec)
    requires Accepted(spec)
    ensures ParentsOk(spec.parentCIDRs) && NoDuplicates(Ids(spec.injectionRules))
  {
    var parents := spec.parentCIDRs;
    forall p, q | IsParent(parents, p) && IsParent(parents, q) && p != q
      ensures !Overlaps(p, q)
    {
      var a :| a in parents && p in parents[a];
      var b :| b in parents && q in parents[b];
      var i :| 0 <= i < |parents[a]| && parents[a][i] == p;
      var j :| 0 <= j < |parents[b]| && parents[b][j] == q;
      if a == b {
        assert DisjointSeq(parents[a]);
        assert !Overlaps(p, q) || !Overlaps(q, p);
      } else {
        assert DisjointFrom(parents[a], parents[b]);
      }
    }
  }
}
