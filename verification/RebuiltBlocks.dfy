/** What a successful rebuild has registered, whatever state it starts from. */
module RebuiltBlocks {
  import opened Prefixes
  import opened Forest
  import opened GoIpam
  import opened Config
  import opened Patches
  import opened Rebuild
  import opened RebuildTheorems
  import opened System
  import opened SystemInvariant

  /** All candidates for a parent are registered. */
  ghost predicate CandidatesIn(a: Allocator, tmpParents: seq<Prefix>, parents: seq<Prefix>) {
    (forall p | p in tmpParents :: p in a) && (forall p | p in parents :: p in a)
  }

  lemma IdentifiedIsCandidate(c: Prefix, tmpParents: seq<Prefix>, parents: seq<Prefix>)
    ensures match IdentifyParent(c, [Reverse(tmpParents), parents])
      case None => true
      case Some(p) => p in tmpParents || p in parents
  {
    IdentifyInTwo(c, Reverse(tmpParents), parents);
    var i := FirstOverlapIndex(Reverse(tmpParents), c);
    var j := FirstOverlapIndex(parents, c);
  }

  lemma {:induction false} PatchRegisters(st: Progress, parents: seq<Prefix>, patch: Patch)
    requires CandidatesIn(st.ipam, st.tmpParents, parents) && RegisterOne(st, parents, patch).Some?
    ensures var now := RegisterOne(st, parents, patch).value;
      && CandidatesIn(now.ipam, now.tmpParents, parents)
      && now.ipam.Keys == st.ipam.Keys + (if AddsBlock(patch) then {BlockOf(patch)} else {})
  {
    if AddsBlock(patch) {
      IdentifiedIsCandidate(BlockOf(patch), st.tmpParents, parents);
    }
  }

  lemma {:induction false} ListRegisters(a: Allocator, parents: seq<Prefix>, patches: seq<Patch>)
    requires CandidatesIn(a, [], parents) && RegisterList(a, parents, patches).Some?
    ensures var now := RegisterList(a, parents, patches).value;
      CandidatesIn(now.ipam, now.tmpParents, parents) && now.ipam.Keys == a.Keys + BlockSet(patches)
  {
    if patches != [] {
      var n := |patches| - 1;
      ListRegisters(a, parents, patches[..n]);
      PatchRegisters(RegisterList(a, parents, patches[..n]).value, parents, patches[n]);
    }
  }

  lemma {:induction false} ListsRegister(a: Allocator, parents: seq<Prefix>, lists: seq<seq<Patch>>)
    requires CandidatesIn(a, [], parents) && RegisterAll(a, parents, lists).Some?
    ensures CandidatesIn(RegisterAll(a, parents, lists).value, [], parents)
    ensures RegisterAll(a, parents, lists).value.Keys == a.Keys + AllBlocks(lists)
  {
    if lists != [] {
      var n := |lists| - 1;
      ListsRegister(a, parents, lists[..n]);
      ListRegisters(RegisterAll(a, parents, lists[..n]).value, parents, lists[n]);
    }
  }

  /** The owner's patch list counts for the rebuild, and one of its patches adds the block. */
  ghost predicate TakenIn(s: State, relevant: set<string>, o: Owner, c: Prefix) {
    && HasConfig(s, o) && (o.cluster in relevant || ConfigOf(s, o).finalizer)
    && exists x :: x in ConfigOf(s, o).patches && x.op == Add && x.value == Str(Block(c))
  }

  /** In whatever state a rebuild succeeds: registered are the configured parents and the blocks of
      all relevant clusters and of all ClusterConfigs with the finalizer, and nothing else. */
  lemma {:induction false} RebuiltExactly(s: State, relevant: set<string>, a: Allocator, c: Prefix)
    requires RebuildsTo(s, relevant, Some(a))
    ensures c in a <==> IsParent(s.parents, c) || exists o :: TakenIn(s, relevant, o, c)
  {
    var h := Handled(s.ccs, relevant);
    var ids: seq<string>, keys: seq<Owner> :| Enumerates(ids, s.parents.Keys) && Enumerates(keys, h.Keys)
      && Some(a) == RebuildFrom(Flatten(ids, s.parents), ListsIn(keys, h));
    var ps, lists := Flatten(ids, s.parents), ListsIn(keys, h);
    ParentsRegistered(ps);
    ListsRegister(RegisterParents(ps).value, ps, lists);
    FlattenMembers(ids, s.parents, c);
    AllBlocksMembers(lists, c);
    if o :| TakenIn(s, relevant, o, c) {
      TakenInIsHandled(s, relevant, o, c);
      var i :| 0 <= i < |keys| && keys[i] == o;
      assert c in BlockSet(lists[i]);
    }
    if i :| 0 <= i < |lists| && c in BlockSet(lists[i]) {
      TakenInIsHandled(s, relevant, keys[i], c);
    }
  }

  lemma {:induction false} TakenInIsHandled(s: State, relevant: set<string>, o: Owner, c: Prefix)
    ensures TakenIn(s, relevant, o, c) <==>
      o in Handled(s.ccs, relevant) && c in BlockSet(Handled(s.ccs, relevant)[o])
  {
    assert o == Owner(o.cluster, o.rule);
    if HasConfig(s, o) {
      var patches := ConfigOf(s, o).patches;
      BlockSetMembers(patches, c);
      assert forall x :: AddsBlock(x) && BlockOf(x) == c <==> x.op == Add && x.value == Str(Block(c));
      if i :| 0 <= i < |patches| && AddsBlock(patches[i]) && BlockOf(patches[i]) == c {
        assert patches[i] in patches;
      }
    }
  }

  // ----- No block twice -----

  /** The block was acquired for this list and for no other, from a configured parent or from another
      block of the list. */
  ghost predicate LinkIn(a: Allocator, parents: seq<Prefix>, lists: seq<seq<Patch>>, i: int, x: Prefix)
    requires x in a && a[x].Some?
  {
    var p := a[x].value;
    && 0 <= i < |lists| && x in BlockSet(lists[i])
    && (forall j | 0 <= j < |lists| && x in BlockSet(lists[j]) :: j == i)
    && (p in parents || (p in a && a[p].Some? && p in BlockSet(lists[i])))
  }

  ghost predicate Within(parents: seq<Prefix>, x: Prefix) {
    exists p :: p in parents && Covers(p, x)
  }

  ghost predicate Linked(a: Allocator, parents: seq<Prefix>, lists: seq<seq<Patch>>, x: Prefix)
    requires x in a && a[x].Some?
  {
    Within(parents, x) && exists i :: LinkIn(a, parents, lists, i, x)
  }

  /** Blocks that overlap a configured parent, but are none, have been acquired. */
  ghost predicate Acquired(a: Allocator, parents: seq<Prefix>, patches: seq<Patch>) {
    forall x | x in BlockSet(patches) && x !in parents && Under(parents, x) :: x in a && a[x].Some?
  }

  /** A forest whose links can be traced back to the lists. */
  ghost predicate Traced(a: Allocator, parents: seq<Prefix>, lists: seq<seq<Patch>>) {
    && WellFormed(a) && (forall p | p in parents :: p in a && a[p].None?)
    && (forall x | x in a && a[x].Some? :: Linked(a, parents, lists, x))
    && (forall i | 0 <= i < |lists| :: Acquired(a, parents, lists[i]))
  }

  /** The candidates gathered for the last list. */
  ghost predicate Gathered(a: Allocator, tmpParents: seq<Prefix>, patches: seq<Patch>) {
    forall t | t in tmpParents :: t in a && a[t].Some? && t in BlockSet(patches)
  }

  lemma BlocksOfOneMore(patches: seq<Patch>, patch: Patch)
    ensures BlockSet(patches + [patch]) == BlockSet(patches) + (if AddsBlock(patch) then {BlockOf(patch)} else {})
  {
    assert (patches + [patch])[..|patches|] == patches;
  }

  /** Links stay traced if the last list grows by a block that is not linked, or by none. */
  lemma {:induction false} LongerList(a: Allocator, parents: seq<Prefix>, before: seq<seq<Patch>>, cur: seq<Patch>,
                                      more: seq<Patch>)
    requires Traced(a, parents, before + [cur]) && BlockSet(cur) <= BlockSet(more) && Acquired(a, parents, more)
    requires forall x | x in BlockSet(more) && x !in BlockSet(cur) :: x in a && a[x].None?
    ensures Traced(a, parents, before + [more])
  {
    var lists, lists' := before + [cur], before + [more];
    forall x | x in a && a[x].Some?
      ensures Linked(a, parents, lists', x)
    {
      assert Linked(a, parents, lists, x);
      var i :| LinkIn(a, parents, lists, i, x);
      LinkStays(a, a, parents, before, cur, more, i, x);
    }
    OthersAcquired(a, a, parents, before, cur, more);
  }

  lemma {:induction false} LinkStays(a: Allocator, b: Allocator, parents: seq<Prefix>, before: seq<seq<Patch>>,
                                     cur: seq<Patch>, more: seq<Patch>, i: int, x: Prefix)
    requires x in a && a[x].Some? && LinkIn(a, parents, before + [cur], i, x)
    requires forall y | y in a :: y in b && b[y] == a[y]
    requires BlockSet(cur) <= BlockSet(more) && (x in BlockSet(more) ==> x in BlockSet(cur))
    ensures LinkIn(b, parents, before + [more], i, x)
  {
    var lists, lists' := before + [cur], before + [more];
    forall j | 0 <= j < |lists|
      ensures BlockSet(lists[j]) <= BlockSet(lists'[j]) && (x in BlockSet(lists'[j]) <==> x in BlockSet(lists[j]))
    {
      assert j < |before| ==> lists[j] == lists'[j];
    }
  }

  lemma {:induction false} OthersAcquired(a: Allocator, b: Allocator, parents: seq<Prefix>, before: seq<seq<Patch>>,
                                          cur: seq<Patch>, more: seq<Patch>)
    requires forall i | 0 <= i < |before + [cur]| :: Acquired(a, parents, (before + [cur])[i])
    requires forall y | y in a :: y in b && b[y] == a[y]
    requires Acquired(b, parents, more)
    ensures forall i | 0 <= i < |before + [more]| :: Acquired(b, parents, (before + [more])[i])
  {
    forall i | 0 <= i < |before + [more]|
      ensures Acquired(b, parents, (before + [more])[i])
    {
      if i < |before| {
        assert (before + [more])[i] == (before + [cur])[i] && Acquired(a, parents, (before + [cur])[i]);
      }
    }
  }

  lemma {:induction false} NewRootTraced(a: Allocator, parents: seq<Prefix>, lists: seq<seq<Patch>>, c: Prefix)
    requires Traced(a, parents, lists) && c !in a && forall d | d in a :: !Overlaps(d, c)
    ensures Traced(a[c := None], parents, lists)
  {
    var b := a[c := None];
    AddRoot(a, c);
    forall x | x in b && b[x].Some?
      ensures Linked(b, parents, lists, x)
    {
      assert Linked(a, parents, lists, x);
      var i :| LinkIn(a, parents, lists, i, x);
      assert LinkIn(b, parents, lists, i, x);
    }
    assert forall x :: x in a ==> b[x] == a[x];
  }

  lemma {:induction false} AcquiredTraced(a: Allocator, parents: seq<Prefix>, before: seq<seq<Patch>>,
                                          cur: seq<Patch>, p: Prefix, c: Prefix, more: seq<Patch>)
    requires Traced(a, parents, before + [cur]) && Fits(a, p, c) && BlockSet(more) == BlockSet(cur) + {c}
    requires p in parents || (p in a && a[p].Some? && p in BlockSet(cur))
    ensures Traced(a[c := Some(p)], parents, before + [more])
  {
    var b, lists, lists' := a[c := Some(p)], before + [cur], before + [more];
    AddChild(a, p, c);
    NewLinkTraced(a, parents, before, cur, p, c, more);
    forall x | x in a && a[x].Some?
      ensures Linked(b, parents, lists', x)
    {
      assert Linked(a, parents, lists, x);
      var i :| LinkIn(a, parents, lists, i, x);
      LinkStays(a, b, parents, before, cur, more, i, x);
    }
    assert lists[|before|] == cur && Acquired(a, parents, cur);
    OthersAcquired(a, b, parents, before, cur, more);
  }

  lemma {:induction false} NewLinkTraced(a: Allocator, parents: seq<Prefix>, before: seq<seq<Patch>>,
                                         cur: seq<Patch>, p: Prefix, c: Prefix, more: seq<Patch>)
    requires Traced(a, parents, before + [cur]) && Fits(a, p, c) && BlockSet(more) == BlockSet(cur) + {c}
    requires p in parents || (p in a && a[p].Some? && p in BlockSet(cur))
    ensures Linked(a[c := Some(p)], parents, before + [more], c)
  {
    var b, lists, lists' := a[c := Some(p)], before + [cur], before + [more];
    if p !in parents {
      assert Linked(a, parents, lists, p);
      var q :| q in parents && Covers(q, p);
      assert Covers(q, c);
    }
    assert Within(parents, c);
    assert Under(parents, c) by {
      var q :| q in parents && Covers(q, c);
      assert Overlaps(q, c);
    }
    forall j | 0 <= j < |before|
      ensures c !in BlockSet(lists'[j])
    {
      assert Acquired(a, parents, lists[j]) && lists[j] == lists'[j];
    }
    assert LinkIn(b, parents, lists', |before|, c);
  }

  lemma {:induction false} PatchTraced(st: Progress, parents: seq<Prefix>, before: seq<seq<Patch>>, cur: seq<Patch>,
                                       patch: Patch)
    requires Traced(st.ipam, parents, before + [cur]) && Gathered(st.ipam, st.tmpParents, cur)
    requires RegisterOne(st, parents, patch).Some?
    ensures var now := RegisterOne(st, parents, patch).value;
      Traced(now.ipam, parents, before + [cur + [patch]]) && Gathered(now.ipam, now.tmpParents, cur + [patch])
  {
    BlocksOfOneMore(cur, patch);
    var a, now := st.ipam, RegisterOne(st, parents, patch).value;
    assert (before + [cur])[|before|] == cur && Acquired(a, parents, cur);
    if !patch.op.Add? {
      LongerList(a, parents, before, cur, cur + [patch]);
    } else {
      var c := BlockOf(patch);
      IdentifiedIsCandidate(c, st.tmpParents, parents);
      match IdentifyParent(c, [Reverse(st.tmpParents), parents])
      case None =>
        UnidentifiedTraced(a, parents, before, cur, st.tmpParents, c, now.ipam);
        LongerList(now.ipam, parents, before, cur, cur + [patch]);
      case Some(p) =>
        if p == c {
          LongerList(a, parents, before, cur, cur + [patch]);
        } else {
          AcquiredTraced(a, parents, before, cur, p, c, cur + [patch]);
        }
    }
  }

  lemma {:induction false} UnidentifiedTraced(a: Allocator, parents: seq<Prefix>, before: seq<seq<Patch>>,
                                              cur: seq<Patch>, tmpParents: seq<Prefix>, c: Prefix, b: Allocator)
    requires Traced(a, parents, before + [cur]) && FetchOrNew(a, c) == Some(b)
    requires IdentifyParent(c, [Reverse(tmpParents), parents]).None?
    ensures Traced(b, parents, before + [cur]) && !Under(parents, c) && c in b && b[c].None?
  {
    IdentifyInTwo(c, Reverse(tmpParents), parents);
    var j := FirstOverlapIndex(parents, c);
    if c in a && a[c].Some? {
      assert Linked(a, parents, before + [cur], c);
      var p :| p in parents && Covers(p, c);
      assert Overlaps(p, c);
      assert false;
    }
    if c !in a {
      NewRootTraced(a, parents, before + [cur], c);
    }
  }

  lemma {:induction false} ListTraced(a: Allocator, parents: seq<Prefix>, before: seq<seq<Patch>>, patches: seq<Patch>)
    requires Traced(a, parents, before) && RegisterList(a, parents, patches).Some?
    ensures var now := RegisterList(a, parents, patches).value;
      Traced(now.ipam, parents, before + [patches]) && Gathered(now.ipam, now.tmpParents, patches)
  {
    if patches == [] {
      EmptyListTraced(a, parents, before);
    } else {
      var n := |patches| - 1;
      ListTraced(a, parents, before, patches[..n]);
      PatchTraced(RegisterList(a, parents, patches[..n]).value, parents, before, patches[..n], patches[n]);
      assert patches == patches[..n] + [patches[n]];
    }
  }

  lemma {:induction false} EmptyListTraced(a: Allocator, parents: seq<Prefix>, before: seq<seq<Patch>>)
    requires Traced(a, parents, before)
    ensures Traced(a, parents, before + [[]])
  {
    forall x | x in a && a[x].Some?
      ensures Linked(a, parents, before + [[]], x)
    {
      assert Linked(a, parents, before, x);
      var i :| LinkIn(a, parents, before, i, x);
      assert LinkIn(a, parents, before + [[]], i, x);
    }
  }

  lemma {:induction false} ListsTraced(a: Allocator, parents: seq<Prefix>, lists: seq<seq<Patch>>)
    requires Traced(a, parents, []) && RegisterAll(a, parents, lists).Some?
    ensures Traced(RegisterAll(a, parents, lists).value, parents, lists)
  {
    if lists != [] {
      var n := |lists| - 1;
      ListsTraced(a, parents, lists[..n]);
      ListTraced(RegisterAll(a, parents, lists[..n]).value, parents, lists[..n], lists[n]);
      assert lists == lists[..n] + [lists[n]];
    }
  }

  lemma ParentOrAround(a: Allocator, c: Prefix, d: Prefix)
    requires WellFormed(a) && c in a && d in a && StrictlyCovers(c, d)
    ensures a[d].Some? && (a[d].value == c || StrictlyCovers(c, a[d].value))
  {
    ParentIsBelow(a, c, d);
    NestedOrDisjoint(c, a[d].value);
    NestedOrDisjoint(a[d].value, c);
  }

  lemma RootHasNoneAround(a: Allocator, c: Prefix, p: Prefix)
    requires WellFormed(a) && c in a && p in a && a[p].None?
    ensures !StrictlyCovers(c, p)
  {
    if StrictlyCovers(c, p) {
      ParentIsBelow(a, c, p);
    }
  }

  /** What is around an acquired block is a configured parent or stands on its own list. */
  lemma {:induction false} AroundIsOwn(a: Allocator, parents: seq<Prefix>, lists: seq<seq<Patch>>, i: int, c: Prefix,
                                       d: Prefix)
    requires Traced(a, parents, lists) && c in a && d in a && a[d].Some? && LinkIn(a, parents, lists, i, d)
    requires StrictlyCovers(c, d)
    ensures c in parents || c in BlockSet(lists[i])
    decreases d.len
  {
    var p := a[d].value;
    ParentOrAround(a, c, d);
    if c != p {
      if p in parents {
        RootHasNoneAround(a, c, p);
      } else {
        assert Linked(a, parents, lists, p);
        var j :| LinkIn(a, parents, lists, j, p);
        assert j == i;
        AroundIsOwn(a, parents, lists, i, c, p);
      }
    }
  }

  lemma {:induction false} OwnListsApart(a: Allocator, parents: seq<Prefix>, lists: seq<seq<Patch>>, i: nat, j: nat,
                                         c: Prefix, d: Prefix)
    requires Traced(a, parents, lists) && i < |lists| && j < |lists| && i != j
    requires c in BlockSet(lists[i]) && d in BlockSet(lists[j]) && c !in parents && d !in parents
    requires Under(parents, c) && Under(parents, d)
    ensures !Overlaps(c, d)
  {
    assert Acquired(a, parents, lists[i]) && Acquired(a, parents, lists[j]);
    assert Linked(a, parents, lists, c) && Linked(a, parents, lists, d);
    var k :| LinkIn(a, parents, lists, k, c);
    var l :| LinkIn(a, parents, lists, l, d);
    NestedOrDisjoint(c, d);
    NestedOrDisjoint(d, c);
    if StrictlyCovers(c, d) {
      AroundIsOwn(a, parents, lists, l, c, d);
    } else if StrictlyCovers(d, c) {
      AroundIsOwn(a, parents, lists, k, d, c);
    }
  }

  /** Where the parents and the lists of a rebuild come from. */
  lemma {:induction false} RebuildIsTraced(s: State, relevant: set<string>, a: Allocator)
      returns (ids: seq<string>, keys: seq<Owner>)
    requires RebuildsTo(s, relevant, Some(a))
    ensures Enumerates(ids, s.parents.Keys) && Enumerates(keys, Handled(s.ccs, relevant).Keys)
    ensures Traced(a, Flatten(ids, s.parents), ListsIn(keys, Handled(s.ccs, relevant)))
  {
    var h := Handled(s.ccs, relevant);
    ids, keys :| Enumerates(ids, s.parents.Keys) && Enumerates(keys, h.Keys)
      && Some(a) == RebuildFrom(Flatten(ids, s.parents), ListsIn(keys, h));
    var ps := Flatten(ids, s.parents);
    ParentsRegistered(ps);
    ParentsTraced(ps);
    ListsTraced(RegisterParents(ps).value, ps, ListsIn(keys, h));
  }

  lemma {:induction false} ParentsTraced(parents: seq<Prefix>)
    requires RegisterParents(parents).Some?
    ensures Traced(RegisterParents(parents).value, parents, [])
  {
    ParentsRegistered(parents);
    assert forall p | p in parents :: p in RegisterParents(parents).value.Keys;
  }

  /** In whatever state a rebuild succeeds, it gives a forest, in which every parent link names the
      smallest registered block around. */
  lemma {:induction false} RebuiltIsForest(s: State, relevant: set<string>, a: Allocator)
    requires RebuildsTo(s, relevant, Some(a))
    ensures forall c | c in a :: IsTightest(a.Keys, c, a[c])
  {
    var ids, keys := RebuildIsTraced(s, relevant, a);
    LinksAreTightest(a);
  }

  /** In whatever state a rebuild succeeds, blocks of different owners do not overlap if they lie under
      configured parents: it fails if two ClusterConfigs claim the same room. */
  lemma {:induction false} RebuildRefusesOverlaps(s: State, relevant: set<string>, a: Allocator, o: Owner, c: Prefix,
                                                  o': Owner, c': Prefix)
    requires RebuildsTo(s, relevant, Some(a)) && o != o'
    requires TakenIn(s, relevant, o, c) && UnderParent(s, c) && !IsParent(s.parents, c)
    requires TakenIn(s, relevant, o', c') && UnderParent(s, c') && !IsParent(s.parents, c')
    ensures !Overlaps(c, c')
  {
    var ids, keys := RebuildIsTraced(s, relevant, a);
    var ps, h := Flatten(ids, s.parents), Handled(s.ccs, relevant);
    TakenInIsHandled(s, relevant, o, c);
    TakenInIsHandled(s, relevant, o', c');
    var i :| 0 <= i < |keys| && keys[i] == o;
    var j :| 0 <= j < |keys| && keys[j] == o';
    UnderFlat(s, ids, c);
    UnderFlat(s, ids, c');
    OwnListsApart(a, ps, ListsIn(keys, h), i, j, c, c');
  }

  lemma UnderFlat(s: State, ids: seq<string>, c: Prefix)
    requires Enumerates(ids, s.parents.Keys)
    ensures c in Flatten(ids, s.parents) <==> IsParent(s.parents, c)
    ensures UnderParent(s, c) ==> Under(Flatten(ids, s.parents), c)
  {
    FlattenMembers(ids, s.parents, c);
    if p :| IsParent(s.parents, p) && Overlaps(p, c) {
      FlattenMembers(ids, s.parents, p);
    }
  }
}
