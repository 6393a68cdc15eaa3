/** What a rebuild yields: the one forest over the parents and the listed blocks, whatever
    the iteration orders, and exactly when it fails. */
module RebuildTheorems {
  import opened Prefixes
  import opened Forest
  import opened GoIpam
  import opened Config
  import opened Patches
  import opened Rebuild

  // ----- Vocabulary -----

  /** The blocks a patch list adds. */
  ghost function BlockSet(patches: seq<Patch>): set<Prefix> {
    if patches == [] then {}
    else
      BlockSet(patches[..|patches| - 1])
      + (if AddsBlock(patches[|patches| - 1]) then {BlockOf(patches[|patches| - 1])} else {})
  }

  /** Every "add" carries a block. */
  ghost predicate CleanList(patches: seq<Patch>) {
    forall i | 0 <= i < |patches| && patches[i].op.Add? :: AddsBlock(patches[i])
  }

  ghost predicate Under(parents: seq<Prefix>, c: Prefix) {
    exists p :: p in parents && Overlaps(p, c)
  }

  /** Two different blocks, neither under a configured parent, one inside the other. */
  ghost predicate NestedLoose(parents: seq<Prefix>, s: set<Prefix>) {
    exists c, d :: c in s && d in s && c != d && Overlaps(c, d) && !Under(parents, c) && !Under(parents, d)
  }

  /** No block is larger than a parent it overlaps. */
  ghost predicate NotAbove(parents: seq<Prefix>, s: set<Prefix>) {
    forall p, c | p in parents && c in s && Overlaps(p, c) :: Covers(p, c)
  }

  /** Whatever is registered besides the parents stays clear of s. */
  ghost predicate Apart(a: Allocator, parents: seq<Prefix>, s: set<Prefix>) {
    forall x, c | x in a && x !in parents && c in s :: !Overlaps(x, c)
  }

  ghost predicate ParentRoots(a: Allocator, parents: seq<Prefix>) {
    forall p | p in parents :: p in a && a[p] == None
  }

  lemma {:induction false} BlockSetMembers(patches: seq<Patch>, c: Prefix)
    ensures c in BlockSet(patches) <==>
      exists i :: 0 <= i < |patches| && AddsBlock(patches[i]) && BlockOf(patches[i]) == c
  {
    if patches != [] {
      var n := |patches| - 1;
      BlockSetMembers(patches[..n], c);
      assert forall i | 0 <= i < n :: patches[..n][i] == patches[i];
    }
  }

  // ----- The parents -----

  /** Registering the parents succeeds exactly when any two are equal or disjoint. */
  lemma {:induction false} ParentsRegistered(parents: seq<Prefix>)
    ensures RegisterParents(parents).Some? <==> EqualOrDisjoint(parents)
    ensures RegisterParents(parents).Some? ==>
      var a := RegisterParents(parents).value;
      WellFormed(a) && ParentRoots(a, parents) && a.Keys == set p | p in parents
  {
    if parents != [] {
      var n := |parents| - 1;
      var init, p := parents[..n], parents[n];
      assert parents == init + [p];
      ParentsRegistered(init);
      var r := RegisterParents(init);
      if r.Some? {
        var a := r.value;
        assert forall x :: x in parents <==> x in init || x == p;
        if p !in a && NewRoot(a, p).Some? {
          AddRoot(a, p);
          assert forall d | d in init :: !Overlaps(d, p);
          OverlapSymmetric(p);
        } else if p !in a {
          var d :| d in a && Overlaps(d, p);
          assert d in parents && p in parents;
        }
      }
    }
  }

  lemma OverlapSymmetric(p: Prefix)
    ensures forall d: Prefix :: Overlaps(d, p) <==> Overlaps(p, d)
  {
  }

  // ----- One patch list -----

  /** Progress within one list, s being the blocks met so far. */
  ghost predicate Registered(a0: Allocator, parents: seq<Prefix>, s: set<Prefix>, st: Progress) {
    && WellFormed(st.ipam)
    && st.ipam.Keys == a0.Keys + s
    && ParentRoots(st.ipam, parents)
    && SortedByLength(st.tmpParents)
    && (forall t | t in st.tmpParents :: t in s && st.ipam[t].Some? && Under(parents, t))
    && (forall c | c in s && c !in st.tmpParents && c !in parents :: st.ipam[c] == None && !Under(parents, c))
  }

  ghost predicate Ready(a0: Allocator, parents: seq<Prefix>, s: set<Prefix>, st: Progress, c: Prefix) {
    && Registered(a0, parents, s, st)
    && Apart(a0, parents, s + {c}) && NotAbove(parents, s + {c})
    && (forall d | d in s :: d.len <= c.len)
  }

  /** With no overlapping candidate, the block becomes a root, unless another parentless
      block of the same list is around it. */
  lemma LooseStep(a0: Allocator, parents: seq<Prefix>, s: set<Prefix>, st: Progress, c: Prefix)
    requires Ready(a0, parents, s, st, c)
    requires !Under(parents, c) && forall t | t in st.tmpParents :: !Overlaps(t, c)
    ensures FetchOrNew(st.ipam, c).Some? <==> !exists d :: d in s && d != c && Overlaps(d, c)
    ensures FetchOrNew(st.ipam, c).Some? ==>
      Registered(a0, parents, s + {c}, Progress(FetchOrNew(st.ipam, c).value, st.tmpParents))
  {
    var a := st.ipam;
    forall d | d in a && Overlaps(d, c)
      ensures d in s
    {
      assert d in parents ==> Under(parents, c);
    }
    if c in a {
      assert c in s;
      assert s + {c} == s;
      forall d | d in s && d != c
        ensures !Overlaps(d, c)
      {
        assert a[c] == None;
        if d !in parents {
          assert d !in st.tmpParents ==> a[d] == a[c];
        }
      }
    } else if NewRoot(a, c).Some? {
      AddRoot(a, c);
    }
  }

  /** A block found among its own list's blocks fits under it, unless it is a repeat. */
  lemma NestedStep(a0: Allocator, parents: seq<Prefix>, s: set<Prefix>, st: Progress, c: Prefix, t: Prefix)
    requires Ready(a0, parents, s, st, c)
    requires t in st.tmpParents && t != c && Overlaps(t, c)
    requires forall d | d in st.tmpParents && Overlaps(d, c) :: d.len <= t.len
    ensures Fits(st.ipam, t, c) && Under(parents, c)
  {
    NestedOrDisjoint(t, c);
    NestedUnder(a0, parents, s, st, c, t);
    forall d | d in st.ipam && Overlaps(d, c)
      ensures d != c && st.ipam[d] != Some(t)
    {
      NestedStepAt(a0, parents, s, st, c, t, d);
    }
  }

  lemma NestedStepAt(a0: Allocator, parents: seq<Prefix>, s: set<Prefix>, st: Progress, c: Prefix, t: Prefix, d: Prefix)
    requires Ready(a0, parents, s, st, c)
    requires t in st.tmpParents && StrictlyCovers(t, c) && Overlaps(t, c)
    requires forall d | d in st.tmpParents && Overlaps(d, c) :: d.len <= t.len
    requires d in st.ipam && Overlaps(d, c)
    ensures d != c && st.ipam[d] != Some(t)
  {
    NestedUnder(a0, parents, s, st, c, t);
    var p :| p in parents && Overlaps(p, c) && Covers(p, t);
    WhereRegistered(a0, parents, s, st, c, d);
    if d in parents {
      assert Covers(p, c) && Covers(d, c);
      NestedOrDisjoint(p, c);
      NestedOrDisjoint(d, c);
      ParentIsNoChild(st.ipam, parents, p, t, c, d);
    } else if d in st.tmpParents {
      NestedOrDisjoint(d, t);
    }
  }

  lemma WhereRegistered(a0: Allocator, parents: seq<Prefix>, s: set<Prefix>, st: Progress, c: Prefix, d: Prefix)
    requires Ready(a0, parents, s, st, c) && d in st.ipam && Overlaps(d, c)
    ensures d in parents || d in st.tmpParents || (d in s && st.ipam[d] == None && !Under(parents, d))
  {
  }

  lemma ParentIsNoChild(a: Allocator, parents: seq<Prefix>, p: Prefix, t: Prefix, c: Prefix, d: Prefix)
    requires WellFormed(a) && ParentRoots(a, parents)
    requires p in parents && d in parents && Overlaps(p, c) && Overlaps(d, c)
    requires Covers(p, t) && StrictlyCovers(t, c) && p.len <= c.len && d.len <= c.len
    ensures d != c && a[d] == None
  {
    NestedOrDisjoint(p, c);
    NestedOrDisjoint(d, c);
    CoversOfCommon(p, d, c);
    NestedOrDisjoint(p, t);
  }

  /** A block found under a configured parent only fits directly under that parent. */
  lemma FirstLevelStep(a0: Allocator, parents: seq<Prefix>, s: set<Prefix>, st: Progress, c: Prefix, p: Prefix)
    requires Ready(a0, parents, s, st, c)
    requires p in parents && p != c && Overlaps(p, c)
    requires forall d | d in st.tmpParents :: !Overlaps(d, c)
    ensures Fits(st.ipam, p, c)
  {
    var a := st.ipam;
    NestedOrDisjoint(p, c);
    assert StrictlyCovers(p, c);
  }

  lemma GrowTmp(a0: Allocator, parents: seq<Prefix>, s: set<Prefix>, st: Progress, c: Prefix, p: Prefix)
    requires Ready(a0, parents, s, st, c) && Fits(st.ipam, p, c) && Under(parents, c)
    ensures Registered(a0, parents, s + {c}, Progress(st.ipam[c := Some(p)], st.tmpParents + [c]))
  {
    AddChild(st.ipam, p, c);
    var tmp := st.tmpParents + [c];
    forall i, j | 0 <= i < j < |tmp|
      ensures tmp[i].len <= tmp[j].len
    {
      assert j == |st.tmpParents| ==> st.tmpParents[i] in s;
    }
    forall t | t in tmp
      ensures t == c || t in st.tmpParents
    {
    }
  }

  ghost predicate LooseClash(parents: seq<Prefix>, s: set<Prefix>, c: Prefix) {
    !Under(parents, c) && exists d :: d in s && d != c && Overlaps(d, c)
  }

  lemma RegisterStep(a0: Allocator, parents: seq<Prefix>, s: set<Prefix>, st: Progress, patch: Patch)
    requires AddsBlock(patch) && Ready(a0, parents, s, st, BlockOf(patch))
    ensures RegisterOne(st, parents, patch).Some? <==> !LooseClash(parents, s, BlockOf(patch))
    ensures RegisterOne(st, parents, patch).Some? ==>
      Registered(a0, parents, s + {BlockOf(patch)}, RegisterOne(st, parents, patch).value)
  {
    var c := BlockOf(patch);
    var r := IdentifyParent(c, [Reverse(st.tmpParents), parents]);
    IdentifyInTwo(c, Reverse(st.tmpParents), parents);
    LastOverlap(st.tmpParents, c);
    SearchResult(c, st.tmpParents, parents, r);
    match r {
      case None =>
        LooseStep(a0, parents, s, st, c);
      case Some(t) =>
        if t in st.tmpParents {
          NestedUnder(a0, parents, s, st, c, t);
        } else {
          assert Under(parents, c);
        }
        if t == c {
          RepeatStep(a0, parents, s, st, c);
        } else {
          if t in st.tmpParents {
            LastIsFound(st.tmpParents, parents, c, t);
            NestedStep(a0, parents, s, st, c, t);
          } else {
            FirstLevelStep(a0, parents, s, st, c, t);
          }
          GrowTmp(a0, parents, s, st, c, t);
        }
    }
  }

  /** What the search finds while a list is being registered, measured against the whole
      allocator: the block itself if it is registered, otherwise its tightest encloser of all
      that is registered.  This fails exactly for a block under no parent that repeats, or lies
      in, another block of its list. */
  lemma SearchFindsTightestRegistered(a0: Allocator, parents: seq<Prefix>, s: set<Prefix>, st: Progress, c: Prefix)
    requires Ready(a0, parents, s, st, c) && EqualOrDisjoint(parents)
    ensures SelfOrTightest(st.ipam.Keys, c, IdentifyParent(c, [Reverse(st.tmpParents), parents]))
       <==> Under(parents, c) || forall d | d in s :: !Covers(d, c)
  {
    var r := IdentifyParent(c, [Reverse(st.tmpParents), parents]);
    SearchFindsTightest(c, st.tmpParents, parents);
    IdentifyInTwo(c, Reverse(st.tmpParents), parents);
    SearchResult(c, st.tmpParents, parents, r);
    forall d | d in st.ipam && Covers(d, c)
      ensures d in Candidates(st.tmpParents, parents) || (d in s && !Under(parents, c))
    {
      AroundIsCandidate(a0, parents, s, st, c, d);
    }
    if !Under(parents, c) {
      NothingFound(a0, parents, s, st, c);
      assert r.None?;
      if d :| d in s && Covers(d, c) {
        assert d in st.ipam;
        NestedOrDisjoint(d, c);
      }
    }
  }

  lemma NothingFound(a0: Allocator, parents: seq<Prefix>, s: set<Prefix>, st: Progress, c: Prefix)
    requires Ready(a0, parents, s, st, c) && !Under(parents, c)
    ensures forall t | t in st.tmpParents :: !Overlaps(t, c)
  {
    forall t | t in st.tmpParents
      ensures !Overlaps(t, c)
    {
      if Overlaps(t, c) {
        NestedUnder(a0, parents, s, st, c, t);
      }
    }
  }

  lemma AroundIsCandidate(a0: Allocator, parents: seq<Prefix>, s: set<Prefix>, st: Progress, c: Prefix, d: Prefix)
    requires Ready(a0, parents, s, st, c) && d in st.ipam && Covers(d, c)
    ensures d in Candidates(st.tmpParents, parents) || (d in s && !Under(parents, c))
  {
    assert Overlaps(d, c);
    WhereRegistered(a0, parents, s, st, c, d);
    if p :| p in parents && Overlaps(p, c) && d !in st.tmpParents && d !in parents {
      assert Overlaps(p, d);
    }
  }

  lemma NestedUnder(a0: Allocator, parents: seq<Prefix>, s: set<Prefix>, st: Progress, c: Prefix, t: Prefix)
    requires Ready(a0, parents, s, st, c) && t in st.tmpParents && Overlaps(t, c)
    ensures Under(parents, c)
    ensures exists p :: p in parents && Overlaps(p, c) && Covers(p, t)
  {
    NestedOrDisjoint(t, c);
    var p :| p in parents && Overlaps(p, t);
    assert Covers(p, t);
    assert Overlaps(p, c);
  }

  lemma RepeatStep(a0: Allocator, parents: seq<Prefix>, s: set<Prefix>, st: Progress, c: Prefix)
    requires Ready(a0, parents, s, st, c) && (c in st.tmpParents || c in parents)
    ensures Registered(a0, parents, s + {c}, st)
  {
  }

  lemma LastIsFound(tmp: seq<Prefix>, parents: seq<Prefix>, c: Prefix, t: Prefix)
    requires IdentifyParent(c, [Reverse(tmp), parents]) == Some(t) && t in tmp && SortedByLength(tmp) && Overlaps(t, c)
    ensures forall d | d in tmp && Overlaps(d, c) :: d.len <= t.len
  {
    IdentifyInTwo(c, Reverse(tmp), parents);
    LastOverlap(tmp, c);
  }

  /** One list on top of a well-formed state: it is taken in completely, unless an "add"
      carries no block or two nested blocks are under no parent. */
  lemma {:induction false} ListRegistered(a0: Allocator, parents: seq<Prefix>, patches: seq<Patch>)
    requires WellFormed(a0) && ParentRoots(a0, parents)
    requires SizeSorted(patches)
    requires Apart(a0, parents, BlockSet(patches)) && NotAbove(parents, BlockSet(patches))
    ensures RegisterList(a0, parents, patches).Some? <==> CleanList(patches) && !NestedLoose(parents, BlockSet(patches))
    ensures RegisterList(a0, parents, patches).Some? ==>
      Registered(a0, parents, BlockSet(patches), RegisterList(a0, parents, patches).value)
  {
    if patches != [] {
      var n := |patches| - 1;
      var init, last := patches[..n], patches[n];
      assert CleanList(patches) <==> CleanList(init) && (last.op.Add? ==> AddsBlock(last)) by {
        assert forall i | 0 <= i < n :: init[i] == patches[i];
      }
      ListRegistered(a0, parents, init);
      if AddsBlock(last) {
        LastIsSmallest(patches);
        ClashSplits(parents, BlockSet(init), BlockOf(last));
        if RegisterList(a0, parents, init).Some? {
          RegisterStep(a0, parents, BlockSet(init), RegisterList(a0, parents, init).value, last);
        }
      }
    }
  }

  lemma LastIsSmallest(patches: seq<Patch>)
    requires SizeSorted(patches) && patches != [] && AddsBlock(patches[|patches| - 1])
    ensures forall d | d in BlockSet(patches[..|patches| - 1]) :: d.len <= BlockOf(patches[|patches| - 1]).len
  {
    var n := |patches| - 1;
    forall d | d in BlockSet(patches[..n])
      ensures d.len <= BlockOf(patches[n]).len
    {
      BlockSetMembers(patches[..n], d);
      var i :| 0 <= i < n && AddsBlock(patches[..n][i]) && BlockOf(patches[..n][i]) == d;
      assert patches[..n][i] == patches[i];
    }
  }

  lemma ClashSplits(parents: seq<Prefix>, s: set<Prefix>, c: Prefix)
    requires NotAbove(parents, s) && forall d | d in s :: d.len <= c.len
    ensures NestedLoose(parents, s + {c}) <==> NestedLoose(parents, s) || LooseClash(parents, s, c)
  {
    if LooseClash(parents, s, c) {
      var d :| d in s && d != c && Overlaps(d, c);
      NestedOrDisjoint(d, c);
      forall p | p in parents && Overlaps(p, d)
        ensures Overlaps(p, c)
      {
        assert Covers(p, d);
      }
      assert d in s + {c} && c in s + {c};
    }
    if NestedLoose(parents, s + {c}) {
      var x, y :| x in s + {c} && y in s + {c} && x != y && Overlaps(x, y) && !Under(parents, x) && !Under(parents, y);
      assert Overlaps(y, x);
    }
  }

  lemma KeptPatchesKeepBlocks(was: seq<Patch>, now: seq<Patch>)
    requires forall x | x in was :: x in now
    ensures BlockSet(was) <= BlockSet(now)
  {
    forall c | c in BlockSet(was)
      ensures c in BlockSet(now)
    {
      BlockSetMembers(was, c);
      var i :| 0 <= i < |was| && AddsBlock(was[i]) && BlockOf(was[i]) == c;
      assert was[i] in now;
      BlockSetMembers(now, c);
    }
  }

  // ----- All lists -----

  ghost function AllBlocks(lists: seq<seq<Patch>>): set<Prefix> {
    if lists == [] then {} else AllBlocks(lists[..|lists| - 1]) + BlockSet(lists[|lists| - 1])
  }

  lemma {:induction false} AllBlocksMembers(lists: seq<seq<Patch>>, c: Prefix)
    ensures c in AllBlocks(lists) <==> exists i :: 0 <= i < |lists| && c in BlockSet(lists[i])
  {
    if lists != [] {
      var n := |lists| - 1;
      AllBlocksMembers(lists[..n], c);
      assert forall i | 0 <= i < n :: lists[..n][i] == lists[i];
    }
  }

  ghost predicate DisjointSets(s: set<Prefix>, t: set<Prefix>) {
    forall c, d | c in s && d in t :: !Overlaps(c, d)
  }

  /** What the controller maintains: lists are sorted, lists of different owners do not
      overlap, and no block is larger than a parent it overlaps. */
  ghost predicate ListsOk(parents: seq<Prefix>, lists: seq<seq<Patch>>) {
    && (forall i | 0 <= i < |lists| :: SizeSorted(lists[i]) && NotAbove(parents, BlockSet(lists[i])))
    && (forall i, j | 0 <= i < j < |lists| :: DisjointSets(BlockSet(lists[i]), BlockSet(lists[j])))
  }

  /** A list the rebuild accepts. */
  ghost predicate Restorable(parents: seq<Prefix>, patches: seq<Patch>) {
    CleanList(patches) && !NestedLoose(parents, BlockSet(patches))
  }

  lemma LastListApart(a0: Allocator, parents: seq<Prefix>, lists: seq<seq<Patch>>, a: Allocator)
    requires lists != [] && ListsOk(parents, lists)
    requires a0.Keys == (set p | p in parents) && a.Keys == a0.Keys + AllBlocks(lists[..|lists| - 1])
    ensures Apart(a, parents, BlockSet(lists[|lists| - 1]))
  {
    var n := |lists| - 1;
    forall x, c | x in a && x !in parents && c in BlockSet(lists[n])
      ensures !Overlaps(x, c)
    {
      AllBlocksMembers(lists[..n], x);
      var i :| 0 <= i < n && x in BlockSet(lists[..n][i]);
      assert DisjointSets(BlockSet(lists[i]), BlockSet(lists[n]));
    }
  }

  lemma {:induction false} AllRegistered(a0: Allocator, parents: seq<Prefix>, lists: seq<seq<Patch>>)
    requires WellFormed(a0) && ParentRoots(a0, parents) && a0.Keys == set p | p in parents
    requires ListsOk(parents, lists)
    ensures RegisterAll(a0, parents, lists).Some? <==> forall i | 0 <= i < |lists| :: Restorable(parents, lists[i])
    ensures RegisterAll(a0, parents, lists).Some? ==>
      var a := RegisterAll(a0, parents, lists).value;
      WellFormed(a) && ParentRoots(a, parents) && a.Keys == a0.Keys + AllBlocks(lists)
  {
    if lists != [] {
      var n := |lists| - 1;
      ListsOkInit(parents, lists);
      AllRegistered(a0, parents, lists[..n]);
      if RegisterAll(a0, parents, lists[..n]).Some? {
        LastListRegistered(a0, parents, lists, RegisterAll(a0, parents, lists[..n]).value);
      }
      assert forall i | 0 <= i < n :: lists[..n][i] == lists[i];
    }
  }

  lemma ListsOkInit(parents: seq<Prefix>, lists: seq<seq<Patch>>)
    requires lists != [] && ListsOk(parents, lists)
    ensures ListsOk(parents, lists[..|lists| - 1])
  {
  }

  lemma LastListRegistered(a0: Allocator, parents: seq<Prefix>, lists: seq<seq<Patch>>, a: Allocator)
    requires lists != [] && ListsOk(parents, lists) && WellFormed(a) && ParentRoots(a, parents)
    requires a0.Keys == (set p | p in parents) && a.Keys == a0.Keys + AllBlocks(lists[..|lists| - 1])
    ensures var r := RegisterList(a, parents, lists[|lists| - 1]);
      && (r.Some? <==> Restorable(parents, lists[|lists| - 1]))
      && (r.Some? ==> WellFormed(r.value.ipam) && ParentRoots(r.value.ipam, parents)
                      && r.value.ipam.Keys == a0.Keys + AllBlocks(lists))
  {
    LastListApart(a0, parents, lists, a);
    ListRegistered(a, parents, lists[|lists| - 1]);
  }

  /** The rebuild succeeds exactly when the parents are pairwise equal or disjoint and every
      list is restorable, and then registers the parents and the listed blocks, nothing else,
      as a well-formed forest. */
  lemma RebuildExact(parents: seq<Prefix>, lists: seq<seq<Patch>>)
    requires ListsOk(parents, lists)
    ensures RebuildFrom(parents, lists).Some?
       <==> (EqualOrDisjoint(parents) && forall i | 0 <= i < |lists| :: Restorable(parents, lists[i]))
    ensures RebuildFrom(parents, lists).Some? ==>
      var a := RebuildFrom(parents, lists).value;
      WellFormed(a) && a.Keys == (set p | p in parents) + AllBlocks(lists)
  {
    ParentsRegistered(parents);
    if RegisterParents(parents).Some? {
      AllRegistered(RegisterParents(parents).value, parents, lists);
    }
  }

  /** Round trip: if the live allocator is a well-formed forest over the parents and the
      blocks on the lists, the rebuild gives back exactly that allocator, every parent link
      included. */
  lemma RebuildRoundTrip(live: Allocator, parents: seq<Prefix>, lists: seq<seq<Patch>>)
    requires ListsOk(parents, lists) && EqualOrDisjoint(parents)
    requires forall i | 0 <= i < |lists| :: Restorable(parents, lists[i])
    requires WellFormed(live) && live.Keys == (set p | p in parents) + AllBlocks(lists)
    ensures RebuildFrom(parents, lists) == Some(live)
  {
    RebuildExact(parents, lists);
    CanonicalForm(RebuildFrom(parents, lists).value, live);
  }

  // ----- Iteration orders -----

  /** The patch lists in the order in which the collection is iterated. */
  function ListsIn<K>(order: seq<K>, lists: map<K, seq<Patch>>): (r: seq<seq<Patch>>)
    requires forall k | k in order :: k in lists
    ensures |r| == |order| && forall i | 0 <= i < |r| :: r[i] == lists[order[i]]
  {
    seq(|order|, i requires 0 <= i < |order| => lists[order[i]])
  }

  ghost predicate OwnersOk<K(!new)>(parents: seq<Prefix>, lists: map<K, seq<Patch>>) {
    && (forall k | k in lists :: SizeSorted(lists[k]) && NotAbove(parents, BlockSet(lists[k])))
    && (forall k, l | k in lists && l in lists && k != l :: DisjointSets(BlockSet(lists[k]), BlockSet(lists[l])))
  }

  lemma OrderedOwners<K(!new)>(parents: seq<Prefix>, lists: map<K, seq<Patch>>, order: seq<K>)
    requires Enumerates(order, lists.Keys) && OwnersOk(parents, lists)
    ensures ListsOk(parents, ListsIn(order, lists))
    ensures (forall i | 0 <= i < |order| :: Restorable(parents, ListsIn(order, lists)[i]))
       <==> (forall k | k in lists :: Restorable(parents, lists[k]))
    ensures forall c :: c in AllBlocks(ListsIn(order, lists)) <==> exists k :: k in lists && c in BlockSet(lists[k])
  {
    var ls := ListsIn(order, lists);
    forall i, j | 0 <= i < j < |ls|
      ensures DisjointSets(BlockSet(ls[i]), BlockSet(ls[j]))
    {
      assert order[i] != order[j] && order[i] in lists && order[j] in lists;
    }
    if forall i | 0 <= i < |order| :: Restorable(parents, ls[i]) {
      forall k | k in lists
        ensures Restorable(parents, lists[k])
      {
        var i :| 0 <= i < |order| && order[i] == k;
        assert Restorable(parents, ls[i]);
      }
    }
    forall c
      ensures c in AllBlocks(ls) <==> exists k :: k in lists && c in BlockSet(lists[k])
    {
      BlocksOfLists(lists, order, c);
    }
  }

  lemma BlocksOfLists<K(!new)>(lists: map<K, seq<Patch>>, order: seq<K>, c: Prefix)
    requires Enumerates(order, lists.Keys)
    ensures c in AllBlocks(ListsIn(order, lists)) <==> exists k :: k in lists && c in BlockSet(lists[k])
  {
    var ls := ListsIn(order, lists);
    AllBlocksMembers(ls, c);
    if k :| k in lists && c in BlockSet(lists[k]) {
      var i :| 0 <= i < |order| && order[i] == k;
      assert c in BlockSet(ls[i]);
    }
  }

  // ----- A parent network taken out of the configuration -----

  function TwoPatches(outer: Prefix, inner: Prefix): seq<Patch> {
    [AddPatch("/nodes", Block(outer)), AddPatch("/pods", Block(inner))]
  }

  lemma TwoPatchBlocks(outer: Prefix, inner: Prefix)
    ensures BlockSet(TwoPatches(outer, inner)) == {outer, inner}
    ensures CleanList(TwoPatches(outer, inner))
    ensures outer.len <= inner.len ==> SizeSorted(TwoPatches(outer, inner))
  {
    var patches := TwoPatches(outer, inner);
    assert patches[..1] == [patches[0]] && patches[..1][..0] == [];
    assert BlockSet(patches[..1]) == {outer};
  }

  /** Removing the parent that nested blocks were taken from makes every rebuild fail: the
      outer block becomes a root, and the list does not remember it as a parent for the inner
      one. */
  lemma NestedBlocksNeedAParent(outer: Prefix, inner: Prefix)
    requires StrictlyCovers(outer, inner)
    ensures RebuildFrom([], [TwoPatches(outer, inner)]).None?
    ensures RebuildFrom([outer], [TwoPatches(outer, inner)]).Some?
  {
    var patches := TwoPatches(outer, inner);
    TwoPatchBlocks(outer, inner);
    assert [patches][0] == patches;
    assert NestedLoose([], BlockSet(patches)) by {
      assert outer in BlockSet(patches) && inner in BlockSet(patches) && Overlaps(outer, inner);
    }
    RebuildExact([], [patches]);
    assert outer in [outer] && Overlaps(outer, outer);
    assert Under([outer], outer) && Under([outer], inner);
    RebuildExact([outer], [patches]);
  }

  /** A concrete case: 10.0.0.0/24 with 10.0.0.0/28 inside, and no parent configured. */
  lemma NestedBlocksExample() returns (outer: Prefix, inner: Prefix)
    ensures outer == Cidr(0x0A000000, 24) && inner == Cidr(0x0A000000, 28)
    ensures RebuildFrom([], [TwoPatches(outer, inner)]).None?
  {
    PrivateBlock(24);
    PrivateBlock(28);
    outer, inner := Cidr(0x0A000000, 24), Cidr(0x0A000000, 28);
    Pow2Strict(4, 8);
    NestedBlocksNeedAParent(outer, inner);
  }

  /** 10.0.0.0 is a network address for every mask length from 8 on. */
  lemma PrivateBlock(len: nat)
    requires 8 <= len <= 32
    ensures IsPrefix(Cidr(0x0A000000, len))
  {
    ZeroBits24();
    FewerZeroBits(0x0A000000, 24, 32 - len);
    Pow2AtMost(32 - len, 24);
    assert Pow2(24) == 0x1000000 && Pow2(32) == 0x100000000 by {
      Pow2Values();
    }
  }

  lemma ZeroBits24()
    ensures HasZeroBits(0x0A000000, 24)
  {
    assert HasZeroBits(0x0A, 0);
    assert HasZeroBits(0x0A00, 8) by { assert HasZeroBits(0xA0, 4); }
    assert HasZeroBits(0x0A0000, 16) by { assert HasZeroBits(0xA000, 12); }
    assert HasZeroBits(0xA00000, 20);
  }

  lemma {:induction false} FewerZeroBits(x: nat, k: nat, j: nat)
    requires j <= k && HasZeroBits(x, k)
    ensures HasZeroBits(x, j)
  {
    if j > 0 {
      FewerZeroBits(x / 2, k - 1, j - 1);
    }
  }

  lemma Pow2AtMost(i: nat, j: nat)
    requires i <= j
    ensures Pow2(i) <= Pow2(j)
  {
    if i < j {
      Pow2Strict(i, j);
    }
  }

  lemma Pow2Values()
    ensures Pow2(24) == 0x1000000 && Pow2(32) == 0x100000000
  {
    assert Pow2(8) == 0x100 && Pow2(16) == 0x10000;
  }
}
