/** How many blocks fit: a bound on the whole allocator in every state of every run, blocks
    left behind by failed operations included. */
module Capacity {
  import opened Prefixes
  import opened Forest
  import opened GoIpam
  import opened Chains
  import opened Config
  import opened Patches
  import opened Generation
  import GenerationTheorems
  import Release
  import opened Rebuild
  import opened RebuildTheorems
  import opened InjectionManagement
  import opened InjectionTheorems
  import opened System

  // ----- Operations on the allocator -----

  lemma AcquireKeepsApart(a: Allocator, p: Prefix, c: Prefix)
    requires ChildrenApart(a) && Fits(a, p, c)
    ensures ChildrenApart(a[c := Some(p)])
  {
    var b := a[c := Some(p)];
    forall d, e | d in b && e in b && d != e && b[d].Some? && b[d] == b[e]
      ensures !Overlaps(d, e)
    {
      assert d == c || e == c || a[d] == a[e];
    }
  }

  /** b has no block that a does not have, and no other parent links. */
  ghost predicate PartOf(b: Allocator, a: Allocator) {
    forall x | x in b :: x in a && b[x] == a[x]
  }

  lemma PartKeepsApart(a: Allocator, b: Allocator)
    requires ChildrenApart(a) && PartOf(b, a)
    ensures ChildrenApart(b)
  {
  }

  lemma {:induction false} TraceKeepsApart(a: Allocator, injs: seq<Injection>, parents: map<string, seq<Prefix>>,
                                           trace: seq<Pick>)
    requires ChildrenApart(a) && |trace| <= |injs| && ValidTrace(a, injs, parents, trace)
    ensures ChildrenApart(StateAfter(a, trace))
  {
    if trace != [] {
      var n := |trace| - 1;
      TraceKeepsApart(a, injs, parents, trace[..n]);
      AcquireKeepsApart(StateAfter(a, trace[..n]), trace[n].host, trace[n].block);
    }
  }

  /** Generating the blocks of a rule, with success or not. */
  lemma GenerateKeepsApart(a: Allocator, injs: seq<Injection>, parents: map<string, seq<Prefix>>,
                           trace: seq<Pick>, r: Option<map<string, Prefix>>, b: Allocator)
    requires ChildrenApart(a) && GenerateSpec(a, injs, parents, trace, r, b)
    ensures ChildrenApart(b)
  {
    TraceKeepsApart(a, injs, parents, trace);
    if r.None? {
      var raw := RawAfter(injs, trace);
      var order: seq<string> :|
        Enumerates(order, raw.Keys) && ReleasedInOrder(StateAfter(a, trace), ValuesIn(order, raw), b);
      GenerationTheorems.RollbackFrame(StateAfter(a, trace), ValuesIn(order, raw), b);
      PartKeepsApart(StateAfter(a, trace), b);
    }
  }

  lemma {:induction false} RulesKeepApart(ctx: Context, rules: seq<Rule>, ws: seq<Work>)
    requires RulesRun(ctx, rules, ws) && ChildrenApart(ws[0].ipam)
    ensures ChildrenApart(ws[|rules|].ipam)
  {
    if rules != [] {
      var n := |rules| - 1;
      LastStep(ctx, rules, ws);
      RulesKeepApart(ctx, rules[..n], ws[..n + 1]);
      RuleKeepsApart(ctx, ws[n], rules[n], ws[n + 1]);
    }
  }

  lemma RuleKeepsApart(ctx: Context, w: Work, rule: Rule, w': Work)
    requires RuleStep(ctx, w, rule, w') && ChildrenApart(w.ipam)
    ensures ChildrenApart(w'.ipam)
  {
    if w'.ipam != w.ipam {
      var trace, r :| GenerateSpec(w.ipam, NormRule(ctx.conv, rule).injections, ctx.parents, trace, r, w'.ipam);
      GenerateKeepsApart(w.ipam, NormRule(ctx.conv, rule).injections, ctx.parents, trace, r, w'.ipam);
    }
  }

  // ----- A rebuild -----

  lemma FetchKeepsApart(a: Allocator, c: Prefix)
    requires ChildrenApart(a) && FetchOrNew(a, c).Some?
    ensures ChildrenApart(FetchOrNew(a, c).value)
  {
  }

  lemma {:induction false} ParentsKeepApart(a: Allocator, cidrs: seq<Prefix>)
    requires ChildrenApart(a) && RegisterFrom(a, cidrs).Some?
    ensures ChildrenApart(RegisterFrom(a, cidrs).value)
  {
    if cidrs != [] {
      var n := |cidrs| - 1;
      ParentsKeepApart(a, cidrs[..n]);
      FetchKeepsApart(RegisterFrom(a, cidrs[..n]).value, cidrs[n]);
    }
  }

  lemma {:induction false} ListKeepsApart(a: Allocator, parents: seq<Prefix>, patches: seq<Patch>)
    requires ChildrenApart(a) && RegisterList(a, parents, patches).Some?
    ensures ChildrenApart(RegisterList(a, parents, patches).value.ipam)
  {
    if patches != [] {
      var n := |patches| - 1;
      ListKeepsApart(a, parents, patches[..n]);
      PatchKeepsApart(RegisterList(a, parents, patches[..n]).value, parents, patches[n]);
    }
  }

  lemma PatchKeepsApart(st: Progress, parents: seq<Prefix>, patch: Patch)
    requires ChildrenApart(st.ipam) && RegisterOne(st, parents, patch).Some?
    ensures ChildrenApart(RegisterOne(st, parents, patch).value.ipam)
  {
    if patch.op.Add? {
      var c := BlockOf(patch);
      match IdentifyParent(c, [Reverse(st.tmpParents), parents])
      case None => FetchKeepsApart(st.ipam, c);
      case Some(p) =>
        if p != c {
          AcquireKeepsApart(st.ipam, p, c);
        }
    }
  }

  lemma {:induction false} ListsKeepApart(a: Allocator, parents: seq<Prefix>, lists: seq<seq<Patch>>)
    requires ChildrenApart(a) && RegisterAll(a, parents, lists).Some?
    ensures ChildrenApart(RegisterAll(a, parents, lists).value)
  {
    if lists != [] {
      var n := |lists| - 1;
      ListsKeepApart(a, parents, lists[..n]);
      ListKeepsApart(RegisterAll(a, parents, lists[..n]).value, parents, lists[n]);
    }
  }

  /** Whatever the patch lists say: a rebuild registers a block only where there is room. */
  lemma RebuildIsApart(parents: seq<Prefix>, lists: seq<seq<Patch>>)
    requires RebuildFrom(parents, lists).Some?
    ensures ChildrenApart(RebuildFrom(parents, lists).value)
  {
    ParentsKeepApart(map[], parents);
    ListsKeepApart(RegisterParents(parents).value, parents, lists);
  }

  lemma RebuildsApart(s: State, relevant: set<string>, a: Allocator)
    requires RebuildsTo(s, relevant, Some(a))
    ensures ChildrenApart(a)
  {
    var ids: seq<string>, keys: seq<Owner> :| Enumerates(ids, s.parents.Keys)
      && Enumerates(keys, Handled(s.ccs, relevant).Keys)
      && Some(a) == RebuildFrom(Flatten(ids, s.parents), ListsIn(keys, Handled(s.ccs, relevant)));
    RebuildIsApart(Flatten(ids, s.parents), ListsIn(keys, Handled(s.ccs, relevant)));
  }

  // ----- Steps and runs -----

  /** What holds in every run, safe or not. */
  ghost predicate StateApart(s: State) {
    ParentsOk(s.parents) && ChildrenApart(s.ipam)
  }

  lemma StepKeepsApart(conv: Conversion, s: State, step: Step, s': State)
    requires Next(conv, s, step, s') && StateApart(s)
    ensures StateApart(s')
  {
    if !FromOutside(step) {
      CodeKeepsApart(conv, s, step, s');
    }
  }

  lemma CodeKeepsApart(conv: Conversion, s: State, step: Step, s': State)
    requires Next(conv, s, step, s') && StateApart(s) && !FromOutside(step)
    ensures StateApart(s')
  {
    match step
    case Reconcile(cl, rules) => ReconcileKeepsApart(conv, s, cl, rules, s');
    case ReconcilePartly(cl, rules) => ReconcilePartlyKeepsApart(conv, s, cl, rules, s');
    case ReleaseConfig(o, ok) => ReleaseKeepsApart(s, o, ok, s');
    case RebuildIpam(relevant) => RebuildKeepsApart(s, relevant, s');
    case Restart(parents, relevant) => RebuildsApart(s', relevant, s'.ipam);
    case _ =>
  }

  lemma ReconcileKeepsApart(conv: Conversion, s: State, cl: string, rules: seq<Rule>, s': State)
    requires ReconcileStep(s, cl, rules, conv, s') && StateApart(s)
    ensures StateApart(s')
  {
    var ws, res :| ReconcileWith(s, cl, rules, conv, ws, res, s');
    if res.Some? {
      RulesKeepApart(Context(res.value.merged, s.parents, conv), rules, ws);
    }
  }

  lemma ReconcilePartlyKeepsApart(conv: Conversion, s: State, cl: string, rules: seq<Rule>, s': State)
    requires ReconcilePartlyStep(s, cl, rules, conv, s') && StateApart(s)
    ensures StateApart(s')
  {
    var intended :| ReconcileStep(s, cl, rules, conv, intended) && PartlyWritten(s, intended, cl, s');
    ReconcileKeepsApart(conv, s, cl, rules, intended);
  }

  lemma ReleaseKeepsApart(s: State, o: Owner, ok: bool, s': State)
    requires ReleaseStep(s, o, ok, s') && StateApart(s)
    ensures StateApart(s')
  {
    if ok {
      Release.ReleaseFrame(s.ipam, ConfigOf(s, o).patches, s'.ipam);
      PartKeepsApart(s.ipam, s'.ipam);
    }
  }

  lemma RebuildKeepsApart(s: State, relevant: set<string>, s': State)
    requires RebuildStep(s, relevant, s') && StateApart(s)
    ensures StateApart(s')
  {
    var r :| RebuildsTo(s, relevant, r) && s' == s.(ipam := if r.Some? then r.value else s.ipam);
    if r.Some? {
      RebuildsApart(s, relevant, r.value);
    }
  }

  lemma RunKeepsApart(conv: Conversion, states: seq<State>, steps: seq<Step>, i: nat)
    requires Run(conv, states, steps) && i < |states|
    ensures StateApart(states[i])
  {
    RebuildsApart(states[0], {}, states[0].ipam);
    forall s, step, s' | StateApart(s) && NextOf(conv)(s, step, s')
      ensures StateApart(s')
    {
      StepKeepsApart(conv, s, step, s');
    }
    ChainKeeps(NextOf(conv), s => StateApart(s), states, steps, i);
  }

  // ----- The bound -----

  ghost function ParentBlocks(parents: map<string, seq<Prefix>>): (r: set<Prefix>)
    ensures forall p :: p in r <==> IsParent(parents, p)
  {
    set id, p | id in parents && p in parents[id] :: p
  }

  /** In every state of every run, safe or not, the blocks allocated from the configured parents take no
      more room than these have, and any prefix of length n has at most 2^(len - n) registered
      children of length len. */
  lemma WholeRunCapacity(conv: Conversion, states: seq<State>, steps: seq<Step>, i: nat)
    requires Run(conv, states, steps) && i < |states|
    ensures var parents := ParentBlocks(states[i].parents);
      SumOfSizes(FirstLevel(states[i].ipam, parents)) <= SumOfSizes(parents)
    ensures forall p: Prefix, len | p.len <= len <= ADDRESS_BITS ::
      |SizedChildren(states[i].ipam, p, len)| <= Pow2(len - p.len)
  {
    RunKeepsApart(conv, states, steps, i);
    assert PairwiseDisjoint(ParentBlocks(states[i].parents));
    FirstLevelCapacity(states[i].ipam, ParentBlocks(states[i].parents));
    forall p: Prefix, len | p.len <= len <= ADDRESS_BITS
      ensures |SizedChildren(states[i].ipam, p, len)| <= Pow2(len - p.len)
    {
      ChildCapacity(states[i].ipam, p, len);
    }
  }
}
