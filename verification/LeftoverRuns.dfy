/** More concrete runs: the release of a nested list may leave the inner block registered, which
    matters to a later rollback and to a configuration that makes this block a parent. */
module LeftoverRuns {
  import opened Prefixes
  import opened Forest
  import opened GoIpam
  import opened Config
  import opened Chains
  import opened Patches
  import opened Generation
  import opened GenerationTheorems
  import opened Repair
  import opened Release
  import opened RebuildTheorems
  import opened PathTheorems
  import opened System
  import opened ExampleRuns

  /** Outer is gone, and inner, acquired from it, is not. */
  function InnerOnly(p: Prefix, outer: Prefix, inner: Prefix): Allocator {
    map[p := None, inner := Some(outer)]
  }

  function LeftBehind(p: Prefix, outer: Prefix, inner: Prefix): State {
    State(OneParent(p), InnerOnly(p, outer, inner), map[], map[A := map[]])
  }

  /** The library may free the outer block first and then report the inner one as not found. */
  lemma OuterReleased(p: Prefix, outer: Prefix, inner: Prefix)
    requires StrictlyCovers(p, outer) && StrictlyCovers(outer, inner)
    ensures ListReleased(NestedTaken(p, outer, inner), TwoPatches(outer, inner), InnerOnly(p, outer, inner))
  {
    var a, b, patches := NestedTaken(p, outer, inner), InnerOnly(p, outer, inner), TwoPatches(outer, inner);
    assert ReleaseSpec(a, outer, Released, b) by {
      assert a - {outer} == b;
    }
    assert ReleaseSpec(b, inner, NotFound, b);
    assert PatchReleased(a, patches[0], b) && PatchReleased(b, patches[1], b);
    assert patches[..1][..0] == [] && patches[..1][0] == patches[0];
    assert ListReleased(a, patches[..1][..0], a);
    assert ListReleased(a, patches[..1], b);
  }

  lemma ReleasesOuter(next: Relation, s: State, p: Prefix, outer: Prefix, inner: Prefix)
    requires HasSafeSteps(next) && StrictlyCovers(p, outer) && StrictlyCovers(outer, inner)
    requires s == Nested(p, outer, inner).(clusters := map[])
    ensures next(s, ReleaseConfig(Owner(A, R), true), LeftBehind(p, outer, inner))
  {
    OuterStep(s, p, outer, inner);
    Releases(next, s, Owner(A, R), LeftBehind(p, outer, inner));
  }

  lemma OuterStep(s: State, p: Prefix, outer: Prefix, inner: Prefix)
    requires StrictlyCovers(p, outer) && StrictlyCovers(outer, inner)
    requires s == Nested(p, outer, inner).(clusters := map[])
    ensures ReleaseStep(s, Owner(A, R), true, LeftBehind(p, outer, inner)) && ConfigOf(s, Owner(A, R)).finalizer
  {
    var o, s' := Owner(A, R), LeftBehind(p, outer, inner);
    OnlyConfigChanges(s, A, None);
    assert s' == WithConfig(s, o, None).(ipam := s'.ipam);
    ReleasesNested(s, o, p, outer, inner, s');
  }

  lemma ReleasesNested(s: State, o: Owner, p: Prefix, outer: Prefix, inner: Prefix, s': State)
    requires StrictlyCovers(p, outer) && StrictlyCovers(outer, inner) && o.cluster !in s.clusters && HasConfig(s, o)
    requires ConfigOf(s, o) == NestedConfig(outer, inner) && s.ipam == NestedTaken(p, outer, inner)
    requires s'.ipam == InnerOnly(p, outer, inner) && s' == WithConfig(s, o, None).(ipam := s'.ipam)
    ensures ReleaseStep(s, o, true, s')
  {
    OuterReleased(p, outer, inner);
    assert AfterDelete(ConfigOf(s, o).(finalizer := false)) == None;
  }

  lemma InnerLeftRun(next: Relation, p: Prefix, outer: Prefix, inner: Prefix)
      returns (states: seq<State>, steps: seq<Step>)
    requires HasSafeSteps(next) && StrictlyCovers(p, outer) && StrictlyCovers(outer, inner)
    ensures FromFirst(next, p, states, steps) && states[|steps|] == LeftBehind(p, outer, inner)
  {
    var s := Nested(p, outer, inner);
    var t := s.(clusters := map[]);
    states, steps := NestedRun(next, p, outer, inner);
    Deletes(next, s, A);
    assert s.clusters - {A} == map[];
    states, steps := Extend(next, states, steps, DeleteCluster(A), t);
    ReleasesOuter(next, t, p, outer, inner);
    states, steps := Extend(next, states, steps, ReleaseConfig(Owner(A, R), true), LeftBehind(p, outer, inner));
  }

  // ----- A rollback that does not restore -----

  function TwoParents(p: Prefix, q: Prefix): map<string, seq<Prefix>> {
    map["net" := [p], "new" := [q]]
  }

  /** A block from each of the two parents. */
  function FromBoth(first: MaskLength, second: MaskLength): seq<Injection> {
    [Injection("", "/x", [], ["net"], first), Injection("", "/y", [], ["new"], second)]
  }

  /** A safe run after which nothing is held and a parent q has been added to the configuration.  A
      rule without local parents that gets the outer block again fails at q, which no rebuild has
      registered; and its rollback may leave the outer block registered, because it has a child. */
  lemma {:induction false} RollbackMayKeep(p: Prefix, outer: Prefix, inner: Prefix, q: Prefix)
      returns (states: seq<State>, steps: seq<Step>, b: Allocator)
    requires StrictlyCovers(p, outer) && StrictlyCovers(outer, inner) && !Overlaps(p, q)
    ensures SafeRun(Same, states, steps)
    ensures states[|steps|] == LeftBehind(p, outer, inner).(parents := TwoParents(p, q))
    ensures FailsAtNewParent(states[|steps|].ipam, p, outer, q, b)
    ensures outer in b && outer !in states[|steps|].ipam
  {
    states, steps := ParentAddedRun(p, outer, inner, q);
    OnlyInnerLeft(p, outer, inner, TwoParents(p, q), states[|steps|]);
    b := KeepsOuter(p, outer, inner, q);
  }

  lemma OnlyInnerLeft(p: Prefix, outer: Prefix, inner: Prefix, parents: map<string, seq<Prefix>>, s: State)
    requires StrictlyCovers(p, outer) && StrictlyCovers(outer, inner)
    requires s == LeftBehind(p, outer, inner).(parents := parents)
    ensures s.ipam == InnerOnly(p, outer, inner) && outer !in s.ipam
  {
  }

  /** A rule that gets the block from p may then fail at q, whatever the size it asks for there, and
      leave b behind. */
  ghost predicate FailsAtNewParent(a: Allocator, p: Prefix, block: Prefix, q: Prefix, b: Allocator) {
    forall len: MaskLength :: GenerateSpec(a, FromBoth(block.len, len), TwoParents(p, q),
                                           [Pick(["net"], p, block)], None, b)
  }

  lemma {:induction false} ParentAddedRun(p: Prefix, outer: Prefix, inner: Prefix, q: Prefix)
      returns (states: seq<State>, steps: seq<Step>)
    requires StrictlyCovers(p, outer) && StrictlyCovers(outer, inner) && !Overlaps(p, q)
    ensures SafeRun(Same, states, steps)
    ensures states[|steps|] == LeftBehind(p, outer, inner).(parents := TwoParents(p, q))
  {
    var s := LeftBehind(p, outer, inner);
    SafeHasSafeSteps();
    states, steps := InnerLeftRun(SafeNextOf(Same), p, outer, inner);
    AddsParent(s, p, q);
    ChangesTo(SafeNextOf(Same), s, TwoParents(p, q));
    states, steps := Extend(SafeNextOf(Same), states, steps, ChangeConfig(TwoParents(p, q)),
                            s.(parents := TwoParents(p, q)));
    FromFirstIsRun(p, states, steps);
  }

  lemma AddsParent(s: State, p: Prefix, q: Prefix)
    requires s.clusters == map[] && s.ccs == map[A := map[]] && !Overlaps(p, q)
    requires q !in s.ipam && p in s.ipam && s.ipam[p].None?
    ensures ParentsOk(TwoParents(p, q)) && ConfigFits(s, TwoParents(p, q)) && ParentsOnTop(s, TwoParents(p, q))
  {
  }

  lemma KeepsOuter(p: Prefix, outer: Prefix, inner: Prefix, q: Prefix) returns (b: Allocator)
    requires StrictlyCovers(p, outer) && StrictlyCovers(outer, inner) && !Overlaps(p, q)
    ensures FailsAtNewParent(InnerOnly(p, outer, inner), p, outer, q, b) && outer in b
  {
    var a, trace := InnerOnly(p, outer, inner), [Pick(["net"], p, outer)];
    var now := a[outer := Some(p)];
    assert now[inner] == Some(outer);
    b := ParentSurvives(now, map["/x" := outer], outer);
    forall len: MaskLength
      ensures GenerateSpec(a, FromBoth(outer.len, len), TwoParents(p, q), trace, None, b)
    {
      FailsAtSecond(a, p, outer, q, len);
    }
  }

  lemma FailsAtSecond(a: Allocator, p: Prefix, block: Prefix, q: Prefix, len: MaskLength)
    requires p in a && Fits(a, p, block) && q !in a && q != block
    ensures var injs, trace := FromBoth(block.len, len), [Pick(["net"], p, block)];
      && ValidTrace(a, injs, TwoParents(p, q), trace) && Stuck(a, injs, TwoParents(p, q), trace)
      && StateAfter(a, trace) == a[block := Some(p)] && RawAfter(injs, trace) == map["/x" := block]
  {
    AfterOnePick(a, p, block, len);
    FirstOfBoth(a, p, block, q, len);
    StuckAtSecond(a, p, block, q, len);
  }

  lemma AfterOnePick(a: Allocator, p: Prefix, block: Prefix, len: MaskLength)
    ensures var injs, trace := FromBoth(block.len, len), [Pick(["net"], p, block)];
      && StateAfter(a, trace) == a[block := Some(p)] && RawAfter(injs, trace) == map["/x" := block]
      && LocalsAfter(injs, trace) == map[]
  {
    var injs, trace, none: seq<Pick> := FromBoth(block.len, len), [Pick(["net"], p, block)], [];
    assert trace[..0] == none && StateAfter(a, none) == a;
    assert RawAfter(injs, none) == map[] && GetPaths(injs[0]) == ["/x"];
    assert LocalsAfter(injs, none) == map[];
  }

  lemma FirstOfBoth(a: Allocator, p: Prefix, block: Prefix, q: Prefix, len: MaskLength)
    requires p in a && Fits(a, p, block)
    ensures ValidTrace(a, FromBoth(block.len, len), TwoParents(p, q), [Pick(["net"], p, block)])
  {
    var none: seq<Pick>, pick := [], Pick(["net"], p, block);
    OnlyRegistered(p, a);
    NamedPick(a, FromBoth(block.len, len), TwoParents(p, q), none, "net", p, block);
    OneMorePick(a, FromBoth(block.len, len), TwoParents(p, q), none, pick);
    assert none + [pick] == [pick];
  }

  lemma OnlyRegistered(p: Prefix, a: Allocator)
    ensures RegisteredOnly([p], a) == if p in a then [p] else []
  {
    assert [p][..0] == [] && RegisteredOnly([], a) == [];
  }

  lemma StuckAtSecond(a: Allocator, p: Prefix, block: Prefix, q: Prefix, len: MaskLength)
    requires q !in a && q != block
    ensures Stuck(a, FromBoth(block.len, len), TwoParents(p, q), [Pick(["net"], p, block)])
  {
    var now, noIds: seq<string> := a[block := Some(p)], [];
    AfterOnePick(a, p, block, len);
    OnlyRegistered(q, now);
    assert ["new"][..0] == noIds && CandidatesFor(noIds, map[], TwoParents(p, q), now) == [];
    assert CandidatesFor(["new"], map[], TwoParents(p, q), now) == [];
    assert IdsFor(FromBoth(block.len, len)[1], TwoParents(p, q), ["new"]) && NoneFits(now, [], len);
  }

  // ----- A leftover block that becomes a parent -----

  /** The block left behind becomes the configured parent, which fits all held blocks.  As a parent
      it has no children, and so a cluster gets a block around the one that another cluster has
      got from p. */
  lemma LeftoverAsParent(p: Prefix, outer: Prefix, inner: Prefix, x: Prefix, d: Prefix)
      returns (before: seq<State>, steps: seq<Step>, after: seq<State>, more: seq<Step>)
    requires StrictlyCovers(p, outer) && StrictlyCovers(outer, inner) && StrictlyCovers(inner, x)
    requires StrictlyCovers(x, d)
    ensures UnsafeOnce(before, steps, ChangeConfig(OneParent(inner)), after, more)
    ensures ConfigFits(before[|steps|], OneParent(inner)) && !ParentsOnTop(before[|steps|], OneParent(inner))
    ensures Holds(after[|more|], Owner(B, R), d) && Holds(after[|more|], Owner(C, R), x) && Overlaps(x, d)
  {
    SafeHasSafeSteps();
    before, steps := ServedInside(SafeNextOf(Same), p, outer, inner, x, d);
    after, more := ServedAround(SafeNextOf(Same), p, outer, inner, x, d);
    ChangesUnsafely(p, outer, inner, x, d);
    Assembled(p, before, steps, ChangeConfig(OneParent(inner)), after, more);
  }

  function Inside(p: Prefix, outer: Prefix, inner: Prefix, d: Prefix): State {
    Served(LeftBehind(p, outer, inner), B, p, d)
  }

  lemma ServedInside(next: Relation, p: Prefix, outer: Prefix, inner: Prefix, x: Prefix, d: Prefix)
      returns (states: seq<State>, steps: seq<Step>)
    requires HasSafeSteps(next) && StrictlyCovers(p, outer) && StrictlyCovers(outer, inner)
    requires StrictlyCovers(inner, x) && StrictlyCovers(x, d)
    ensures FromFirst(next, p, states, steps) && states[|steps|] == Inside(p, outer, inner, d)
  {
    states, steps := InnerLeftRun(next, p, outer, inner);
    assert Fits(InnerOnly(p, outer, inner), p, d);
    states, steps := Serve(next, states, steps, LeftBehind(p, outer, inner), B, p, d);
  }

  lemma ServedAround(next: Relation, p: Prefix, outer: Prefix, inner: Prefix, x: Prefix, d: Prefix)
      returns (states: seq<State>, steps: seq<Step>)
    requires HasSafeSteps(next) && StrictlyCovers(p, outer) && StrictlyCovers(outer, inner)
    requires StrictlyCovers(inner, x) && StrictlyCovers(x, d)
    ensures Chain(next, states, steps) && states[0] == Inside(p, outer, inner, d).(parents := OneParent(inner))
    ensures Holds(states[|steps|], Owner(B, R), d) && Holds(states[|steps|], Owner(C, R), x) && Overlaps(x, d)
  {
    var s := Inside(p, outer, inner, d).(parents := OneParent(inner));
    assert Fits(s.ipam, inner, x);
    states, steps := Serve(next, [s], [], s, C, inner, x);
    HoldsServed(states[|steps|], B, d);
    HoldsServed(states[|steps|], C, x);
  }

  lemma ChangesUnsafely(p: Prefix, outer: Prefix, inner: Prefix, x: Prefix, d: Prefix)
    requires StrictlyCovers(p, outer) && StrictlyCovers(outer, inner) && StrictlyCovers(inner, x)
    requires StrictlyCovers(x, d)
    ensures var s, step := Inside(p, outer, inner, d), ChangeConfig(OneParent(inner));
      && Next(Same, s, step, s.(parents := OneParent(inner))) && !SafeStep(s, step)
      && ConfigFits(s, OneParent(inner)) && !ParentsOnTop(s, OneParent(inner))
  {
    var s, parents := Inside(p, outer, inner, d), OneParent(inner);
    var step, s' := ChangeConfig(parents), s.(parents := parents);
    OneParentOk(inner);
    assert Next(Same, s, step, s');
    forall o, c, q | Holds(s, o, c) && IsParent(parents, q) && Overlaps(q, c)
      ensures StrictlyCovers(q, c)
    {
      HoldsOnly(s, p, d, o, c);
    }
    assert parents["net"][0] == inner && IsParent(parents, inner) && s.ipam[inner] == Some(outer);
  }

  lemma HoldsOnly(s: State, p: Prefix, d: Prefix, o: Owner, c: Prefix)
    requires s.clusters == map[B := OneRecord(d)] && s.ccs == map[A := map[], B := map[R := OneConfig(d)]]
    requires Holds(s, o, c)
    ensures c == d
  {
    if InConfig(s, o, c) {
      BlockSetMembers(OneConfig(d).patches, c);
    }
  }

  /** With concrete addresses: 10.0.0.0/31 and 10.0.0.0/32 end up with two owners. */
  lemma LeftoverAsParentExample() returns (before: seq<State>, steps: seq<Step>, after: seq<State>, more: seq<Step>)
    ensures forall len | 8 <= len <= 32 :: IsPrefix(Cidr(0x0A000000, len))
    ensures UnsafeOnce(before, steps, ChangeConfig(OneParent(Cidr(0x0A000000, 28))), after, more)
    ensures Holds(after[|more|], Owner(B, R), Cidr(0x0A000000, 32))
    ensures Holds(after[|more|], Owner(C, R), Cidr(0x0A000000, 31))
  {
    forall len | 8 <= len <= 32
      ensures IsPrefix(Cidr(0x0A000000, len))
    {
      PrivateBlock(len);
    }
    Pow2Strict(8, 16);
    Pow2Strict(4, 8);
    Pow2Strict(1, 4);
    Pow2Strict(0, 1);
    before, steps, after, more := LeftoverAsParent(Cidr(0x0A000000, 16), Cidr(0x0A000000, 24), Cidr(0x0A000000, 28),
                                                   Cidr(0x0A000000, 31), Cidr(0x0A000000, 32));
  }
}
