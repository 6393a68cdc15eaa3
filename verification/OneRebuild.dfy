/** A rebuild has one result, whatever state it starts from and in whatever order it takes the
    parents and the lists: one order fails exactly if every order does. */
module OneRebuild {
  import opened Prefixes
  import opened Forest
  import opened GoIpam
  import opened Config
  import opened Patches
  import opened Rebuild
  import opened RebuildTheorems
  import opened RebuiltBlocks
  import opened System

  /** What b has registered, a has as well, with the same parent. */
  ghost predicate Contained(b: Allocator, a: Allocator) {
    forall x | x in b :: x in a && b[x] == a[x]
  }

  ghost predicate SameMembers(s: seq<Prefix>, t: seq<Prefix>) {
    forall p :: p in s <==> p in t
  }

  // ----- A rebuild only adds -----

  lemma {:induction false} ListAdds(a: Allocator, parents: seq<Prefix>, patches: seq<Patch>)
    requires RegisterList(a, parents, patches).Some?
    ensures Contained(a, RegisterList(a, parents, patches).value.ipam)
  {
    if patches != [] {
      ListAdds(a, parents, patches[..|patches| - 1]);
    }
  }

  lemma {:induction false} ListsAdd(a: Allocator, parents: seq<Prefix>, lists: seq<seq<Patch>>)
    requires RegisterAll(a, parents, lists).Some?
    ensures Contained(a, RegisterAll(a, parents, lists).value)
  {
    if lists != [] {
      var n := |lists| - 1;
      ListsAdd(a, parents, lists[..n]);
      ListAdds(RegisterAll(a, parents, lists[..n]).value, parents, lists[n]);
    }
  }

  /** The state before one of the lists of a rebuild. */
  lemma {:induction false} StateBefore(a: Allocator, parents: seq<Prefix>, lists: seq<seq<Patch>>, i: nat)
      returns (before: Allocator)
    requires RegisterAll(a, parents, lists).Some? && i < |lists|
    ensures RegisterList(before, parents, lists[i]).Some? && Contained(a, before)
    ensures Contained(RegisterList(before, parents, lists[i]).value.ipam, RegisterAll(a, parents, lists).value)
  {
    var n := |lists| - 1;
    if i == n {
      before := RegisterAll(a, parents, lists[..n]).value;
      ListsAdd(a, parents, lists[..n]);
    } else {
      before := StateBefore(a, parents, lists[..n], i);
      ListAdds(RegisterAll(a, parents, lists[..n]).value, parents, lists[n]);
    }
  }

  // ----- The order of the parents -----

  lemma {:induction false} SameCandidate(c: Prefix, tmpParents: seq<Prefix>, parents: seq<Prefix>,
                                         parents': seq<Prefix>)
    requires EqualOrDisjoint(parents) && SameMembers(parents, parents')
    ensures var r, r' := IdentifyParent(c, [Reverse(tmpParents), parents]),
                         IdentifyParent(c, [Reverse(tmpParents), parents']);
      && (r.None? ==> r'.None?)
      && (r.Some? && (r.value == c || StrictlyCovers(r.value, c)) ==> r' == r)
  {
    IdentifyInTwo(c, Reverse(tmpParents), parents);
    IdentifyInTwo(c, Reverse(tmpParents), parents');
    var j := FirstOverlapIndex(parents, c);
    var k := FirstOverlapIndex(parents', c);
    if k < |parents'| {
      assert parents'[k] in parents;
    }
    if j < |parents| {
      assert parents[j] in parents';
    }
  }

  // ----- The same list, on another allocator -----

  lemma {:induction false} RootAgain(a: Allocator, parents: seq<Prefix>, lists: seq<seq<Patch>>,
                                     tmpParents: seq<Prefix>, c: Prefix, b: Allocator)
    requires Traced(a, parents, lists) && c in a && Contained(b, a)
    requires IdentifyParent(c, [Reverse(tmpParents), parents]).None?
    ensures a[c].None? && FetchOrNew(b, c).Some? && Contained(FetchOrNew(b, c).value, a)
  {
    IdentifyInTwo(c, Reverse(tmpParents), parents);
    var j := FirstOverlapIndex(parents, c);
    if a[c].Some? {
      LinkedIsUnder(a, parents, lists, c);
      assert false;
    }
    forall d | d in b && d != c
      ensures !Overlaps(d, c)
    {
      RootIsApart(a, parents, lists, c, d);
    }
  }

  lemma {:induction false} LinkedIsUnder(a: Allocator, parents: seq<Prefix>, lists: seq<seq<Patch>>, c: Prefix)
    requires Traced(a, parents, lists) && c in a && a[c].Some?
    ensures exists p :: p in parents && Overlaps(p, c)
  {
    assert Linked(a, parents, lists, c);
    var p :| p in parents && Covers(p, c);
    assert Overlaps(p, c);
  }

  lemma {:induction false} RootIsApart(a: Allocator, parents: seq<Prefix>, lists: seq<seq<Patch>>, c: Prefix,
                                       d: Prefix)
    requires Traced(a, parents, lists) && c in a && a[c].None? && d in a && d != c
    requires forall p | p in parents :: !Overlaps(p, c)
    ensures !Overlaps(d, c)
  {
    if a[d].Some? {
      assert Linked(a, parents, lists, d);
      var p :| p in parents && Covers(p, d);
      assert !Overlaps(p, c);
    }
  }

  lemma {:induction false} ChildAgain(a: Allocator, b: Allocator, p: Prefix, c: Prefix)
    requires WellFormed(a) && c in a && a[c] == Some(p) && Contained(b, a) && p in b && c !in b
    ensures Fits(b, p, c)
  {
  }

  lemma {:induction false} PatchAgain(a: Allocator, parents: seq<Prefix>, lists: seq<seq<Patch>>,
                                      parents': seq<Prefix>, st: Progress, st': Progress, patch: Patch)
    requires Traced(a, parents, lists) && EqualOrDisjoint(parents) && SameMembers(parents, parents')
    requires RegisterOne(st, parents, patch).Some? && Contained(RegisterOne(st, parents, patch).value.ipam, a)
    requires st'.tmpParents == st.tmpParents && Contained(st'.ipam, a)
    requires CandidatesIn(st'.ipam, st'.tmpParents, parents')
    requires AddsBlock(patch) && BlockOf(patch) !in st.ipam ==>
      BlockOf(patch) in a && (a[BlockOf(patch)].Some? ==> BlockOf(patch) !in st'.ipam)
    ensures RegisterOne(st', parents', patch).Some?
    ensures var now, now' := RegisterOne(st, parents, patch).value, RegisterOne(st', parents', patch).value;
      now'.tmpParents == now.tmpParents && Contained(now'.ipam, a)
  {
    if patch.op.Add? {
      var c := BlockOf(patch);
      SameCandidate(c, st.tmpParents, parents, parents');
      IdentifiedIsCandidate(c, st'.tmpParents, parents');
      match IdentifyParent(c, [Reverse(st.tmpParents), parents])
      case None => RootAgain(a, parents, lists, st.tmpParents, c, st'.ipam);
      case Some(p) =>
        if p != c {
          ChildAgain(a, st'.ipam, p, c);
        }
    }
  }

  lemma {:induction false} ListAgain(a: Allocator, parents: seq<Prefix>, lists: seq<seq<Patch>>,
                                     parents': seq<Prefix>, before: Allocator, b: Allocator, patches: seq<Patch>)
    requires Traced(a, parents, lists) && EqualOrDisjoint(parents) && SameMembers(parents, parents')
    requires CandidatesIn(before, [], parents) && CandidatesIn(b, [], parents') && Contained(b, a)
    requires RegisterList(before, parents, patches).Some?
    requires Contained(RegisterList(before, parents, patches).value.ipam, a)
    requires forall x | x in BlockSet(patches) && x in a && a[x].Some? :: x !in b
    ensures RegisterList(b, parents', patches).Some?
    ensures var now, now' := RegisterList(before, parents, patches).value, RegisterList(b, parents', patches).value;
      now'.tmpParents == now.tmpParents && Contained(now'.ipam, a)
  {
    if patches != [] {
      var n := |patches| - 1;
      var init, last := patches[..n], patches[n];
      OneMoreAdds(before, parents, patches);
      ListAgain(a, parents, lists, parents', before, b, init);
      ListRegisters(before, parents, init);
      ListRegisters(b, parents', init);
      PatchAgain(a, parents, lists, parents', RegisterList(before, parents, init).value,
                 RegisterList(b, parents', init).value, last);
    }
  }

  lemma {:induction false} OneMoreAdds(a: Allocator, parents: seq<Prefix>, patches: seq<Patch>)
    requires patches != [] && CandidatesIn(a, [], parents) && RegisterList(a, parents, patches).Some?
    ensures var init, last := patches[..|patches| - 1], patches[|patches| - 1];
      && RegisterList(a, parents, init).Some?
      && Contained(RegisterList(a, parents, init).value.ipam, RegisterList(a, parents, patches).value.ipam)
      && (AddsBlock(last) ==> BlockOf(last) in RegisterList(a, parents, patches).value.ipam)
  {
    ListRegisters(a, parents, patches);
  }

  // ----- All lists -----

  /** The rebuild in the second order goes as far as one likes. */
  lemma {:induction false} ListsAgain<K>(a: Allocator, parents: seq<Prefix>, parents': seq<Prefix>, keys: seq<K>,
                                         keys': seq<K>, lists: map<K, seq<Patch>>, n: nat)
    requires Enumerates(keys, lists.Keys) && Enumerates(keys', lists.Keys) && SameMembers(parents, parents')
    requires RebuildFrom(parents, ListsIn(keys, lists)) == Some(a) && EqualOrDisjoint(parents)
    requires RegisterParents(parents').Some? && n <= |keys'|
    ensures var r := RegisterAll(RegisterParents(parents').value, parents', ListsIn(keys', lists)[..n]);
      r.Some? && Contained(r.value, a)
  {
    var start, all' := RegisterParents(parents').value, ListsIn(keys', lists);
    ParentsRegistered(parents);
    ParentsRegistered(parents');
    ParentsTraced(parents);
    ListsTraced(RegisterParents(parents).value, parents, ListsIn(keys, lists));
    if n > 0 {
      ListsAgain(a, parents, parents', keys, keys', lists, n - 1);
      assert all'[..n][..n - 1] == all'[..n - 1];
      OneMoreList(a, parents, parents', keys, keys', lists, n - 1);
    }
  }

  lemma {:induction false} OneMoreList<K>(a: Allocator, parents: seq<Prefix>, parents': seq<Prefix>, keys: seq<K>,
                                          keys': seq<K>, lists: map<K, seq<Patch>>, n: nat)
    requires Enumerates(keys, lists.Keys) && Enumerates(keys', lists.Keys) && SameMembers(parents, parents')
    requires RebuildFrom(parents, ListsIn(keys, lists)) == Some(a) && EqualOrDisjoint(parents)
    requires RegisterParents(parents').Some? && n < |keys'| && Traced(a, parents, ListsIn(keys, lists))
    requires RegisterAll(RegisterParents(parents').value, parents', ListsIn(keys', lists)[..n]).Some?
    requires Contained(RegisterAll(RegisterParents(parents').value, parents', ListsIn(keys', lists)[..n]).value, a)
    ensures var b := RegisterAll(RegisterParents(parents').value, parents', ListsIn(keys', lists)[..n]).value;
      var r := RegisterList(b, parents', ListsIn(keys', lists)[n]);
      r.Some? && Contained(r.value.ipam, a)
  {
    var all, all' := ListsIn(keys, lists), ListsIn(keys', lists);
    var start' := RegisterParents(parents').value;
    var b := RegisterAll(start', parents', all'[..n]).value;
    ParentsIn(parents');
    ListsRegister(start', parents', all'[..n]);
    var before := BeforeSameList(a, parents, keys, keys', lists, n);
    forall x | x in BlockSet(all'[n]) && x in a && a[x].Some?
      ensures x !in b
    {
      NotYetThere(a, parents, keys, keys', lists, n, x);
      assert x !in parents';
    }
    ListAgain(a, parents, all, parents', before, b, all'[n]);
  }

  lemma {:induction false} ParentsIn(parents: seq<Prefix>)
    requires RegisterParents(parents).Some?
    ensures CandidatesIn(RegisterParents(parents).value, [], parents)
    ensures forall p :: p in RegisterParents(parents).value <==> p in parents
  {
    ParentsRegistered(parents);
  }

  /** The state in which the first order has met the list that is next in the second one. */
  lemma {:induction false} BeforeSameList<K>(a: Allocator, parents: seq<Prefix>, keys: seq<K>, keys': seq<K>,
                                             lists: map<K, seq<Patch>>, n: nat)
      returns (before: Allocator)
    requires Enumerates(keys, lists.Keys) && Enumerates(keys', lists.Keys) && n < |keys'|
    requires RebuildFrom(parents, ListsIn(keys, lists)) == Some(a)
    ensures CandidatesIn(before, [], parents) && RegisterList(before, parents, ListsIn(keys', lists)[n]).Some?
    ensures Contained(RegisterList(before, parents, ListsIn(keys', lists)[n]).value.ipam, a)
  {
    assert keys'[n] in keys;
    var i :| 0 <= i < |keys| && keys[i] == keys'[n];
    ParentsIn(parents);
    before := StateBefore(RegisterParents(parents).value, parents, ListsIn(keys, lists), i);
  }

  /** An acquired block of this list is on none of the lists before it. */
  lemma {:induction false} NotYetThere<K>(a: Allocator, parents: seq<Prefix>, keys: seq<K>, keys': seq<K>,
                                          lists: map<K, seq<Patch>>, n: nat, x: Prefix)
    requires Enumerates(keys, lists.Keys) && Enumerates(keys', lists.Keys) && n < |keys'|
    requires Traced(a, parents, ListsIn(keys, lists)) && x in a && a[x].Some? && x in BlockSet(ListsIn(keys', lists)[n])
    ensures x !in parents && x !in AllBlocks(ListsIn(keys', lists)[..n])
  {
    var all, all' := ListsIn(keys, lists), ListsIn(keys', lists);
    AllBlocksMembers(all'[..n], x);
    assert Linked(a, parents, all, x);
    var i :| LinkIn(a, parents, all, i, x);
    forall m | 0 <= m < n
      ensures x !in BlockSet(all'[m])
    {
      assert keys'[m] != keys'[n] && keys'[m] in keys && keys'[n] in keys;
      var k :| 0 <= k < |keys| && keys[k] == keys'[m];
      var l :| 0 <= l < |keys| && keys[l] == keys'[n];
      assert all[k] == all'[m] && all[l] == all'[n];
    }
  }

  lemma {:induction false} OtherOrderSucceeds<K>(a: Allocator, parents: seq<Prefix>, parents': seq<Prefix>,
                                                 keys: seq<K>, keys': seq<K>, lists: map<K, seq<Patch>>)
    requires Enumerates(keys, lists.Keys) && Enumerates(keys', lists.Keys) && SameMembers(parents, parents')
    requires RebuildFrom(parents, ListsIn(keys, lists)) == Some(a)
    ensures RebuildFrom(parents', ListsIn(keys', lists)) == Some(a)
  {
    ParentsRegistered(parents);
    ParentsRegistered(parents');
    ListsAgain(a, parents, parents', keys, keys', lists, |keys'|);
    assert ListsIn(keys', lists)[..|keys'|] == ListsIn(keys', lists);
    var b := RebuildFrom(parents', ListsIn(keys', lists)).value;
    RebuiltKeys(parents, ListsIn(keys, lists), a);
    RebuiltKeys(parents', ListsIn(keys', lists), b);
    SameBlocks(keys, keys', lists);
    CanonicalForm(a, b);
  }

  lemma {:induction false} RebuiltKeys(parents: seq<Prefix>, lists: seq<seq<Patch>>, a: Allocator)
    requires RebuildFrom(parents, lists) == Some(a)
    ensures WellFormed(a) && forall c :: c in a <==> c in parents || c in AllBlocks(lists)
  {
    ParentsIn(parents);
    ParentsTraced(parents);
    ListsTraced(RegisterParents(parents).value, parents, lists);
    ListsRegister(RegisterParents(parents).value, parents, lists);
  }

  lemma {:induction false} SameBlocks<K>(keys: seq<K>, keys': seq<K>, lists: map<K, seq<Patch>>)
    requires Enumerates(keys, lists.Keys) && Enumerates(keys', lists.Keys)
    ensures AllBlocks(ListsIn(keys, lists)) == AllBlocks(ListsIn(keys', lists))
  {
    forall c
      ensures c in AllBlocks(ListsIn(keys, lists)) ==> c in AllBlocks(ListsIn(keys', lists))
      ensures c in AllBlocks(ListsIn(keys', lists)) ==> c in AllBlocks(ListsIn(keys, lists))
    {
      BlockInOther(keys, keys', lists, c);
      BlockInOther(keys', keys, lists, c);
    }
  }

  lemma {:induction false} BlockInOther<K>(keys: seq<K>, keys': seq<K>, lists: map<K, seq<Patch>>, c: Prefix)
    requires Enumerates(keys, lists.Keys) && Enumerates(keys', lists.Keys)
    ensures c in AllBlocks(ListsIn(keys, lists)) ==> c in AllBlocks(ListsIn(keys', lists))
  {
    AllBlocksMembers(ListsIn(keys, lists), c);
    AllBlocksMembers(ListsIn(keys', lists), c);
    if i :| 0 <= i < |keys| && c in BlockSet(ListsIn(keys, lists)[i]) {
      assert keys[i] in keys';
      var j :| 0 <= j < |keys'| && keys'[j] == keys[i];
      assert c in BlockSet(ListsIn(keys', lists)[j]);
    }
  }

  /** No iteration order matters, neither that of the configured parents nor that of the
      ClusterConfigs, and whatever the lists are: either every order fails or all give the same
      allocator. */
  lemma {:induction false} RebuildOrderIrrelevant<K>(parents: map<string, seq<Prefix>>, lists: map<K, seq<Patch>>,
                                                     ids1: seq<string>, ids2: seq<string>, keys1: seq<K>,
                                                     keys2: seq<K>)
    requires Enumerates(ids1, parents.Keys) && Enumerates(ids2, parents.Keys)
    requires Enumerates(keys1, lists.Keys) && Enumerates(keys2, lists.Keys)
    ensures RebuildFrom(Flatten(ids1, parents), ListsIn(keys1, lists)) ==
      RebuildFrom(Flatten(ids2, parents), ListsIn(keys2, lists))
  {
    var p1, p2 := Flatten(ids1, parents), Flatten(ids2, parents);
    var r1, r2 := RebuildFrom(p1, ListsIn(keys1, lists)), RebuildFrom(p2, ListsIn(keys2, lists));
    FlattenedAlike(parents, ids1, ids2);
    if r1.Some? {
      OtherOrderSucceeds(r1.value, p1, p2, keys1, keys2, lists);
    } else if r2.Some? {
      OtherOrderSucceeds(r2.value, p2, p1, keys2, keys1, lists);
    }
  }

  lemma FlattenedAlike(parents: map<string, seq<Prefix>>, ids1: seq<string>, ids2: seq<string>)
    requires Enumerates(ids1, parents.Keys) && Enumerates(ids2, parents.Keys)
    ensures SameMembers(Flatten(ids1, parents), Flatten(ids2, parents))
  {
    forall p
      ensures p in Flatten(ids1, parents) <==> p in Flatten(ids2, parents)
    {
      FlattenMembers(ids1, parents, p);
      FlattenMembers(ids2, parents, p);
    }
  }

  /** So a rebuild from a state, if it succeeds in one order, does in every order, with the same
      result. */
  lemma {:induction false} RebuildHasOneResult(s: State, relevant: set<string>, r1: Option<Allocator>,
                                               r2: Option<Allocator>)
    requires RebuildsTo(s, relevant, r1) && RebuildsTo(s, relevant, r2)
    ensures r1 == r2
  {
    var h := Handled(s.ccs, relevant);
    var ids1: seq<string>, keys1: seq<Owner> :| Enumerates(ids1, s.parents.Keys) && Enumerates(keys1, h.Keys)
      && r1 == RebuildFrom(Flatten(ids1, s.parents), ListsIn(keys1, h));
    var ids2: seq<string>, keys2: seq<Owner> :| Enumerates(ids2, s.parents.Keys) && Enumerates(keys2, h.Keys)
      && r2 == RebuildFrom(Flatten(ids2, s.parents), ListsIn(keys2, h));
    RebuildOrderIrrelevant(s.parents, h, ids1, ids2, keys1, keys2);
  }
}
