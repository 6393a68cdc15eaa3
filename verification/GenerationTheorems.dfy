/** What generating the blocks of a rule guarantees: where the blocks lie, what an accepted
    configuration buys, and that a failed rule leaves nothing behind. */
module GenerationTheorems {
  import opened Prefixes
  import opened Forest
  import opened GoIpam
  import opened Config
  import opened ConfigValidation
  import opened Generation

  ghost function Blocks(trace: seq<Pick>): set<Prefix> {
    if trace == [] then {} else Blocks(trace[..|trace| - 1]) + {trace[|trace| - 1].block}
  }

  lemma {:induction false} BlocksMembers(trace: seq<Pick>, c: Prefix)
    ensures c in Blocks(trace) <==> exists k :: 0 <= k < |trace| && trace[k].block == c
  {
    if trace != [] {
      var n := |trace| - 1;
      BlocksMembers(trace[..n], c);
      assert forall k | 0 <= k < n :: trace[..n][k] == trace[k];
    }
  }

  // ----- Candidates -----

  lemma {:induction false} RegisteredOnlyMembers(cidrs: seq<Prefix>, a: Allocator, p: Prefix)
    ensures p in RegisteredOnly(cidrs, a) <==> p in cidrs && p in a
  {
    if cidrs != [] {
      var n := |cidrs| - 1;
      RegisteredOnlyMembers(cidrs[..n], a, p);
      assert cidrs == cidrs[..n] + [cidrs[n]];
    }
  }

  lemma {:induction false} CandidateOrigin(ids: seq<string>, locals: map<string, Prefix>,
                                           parents: map<string, seq<Prefix>>, a: Allocator, p: Prefix)
    requires p in CandidatesFor(ids, locals, parents, a)
    ensures exists id :: id in ids && p in PrefixesFor(id, locals, parents, a)
    ensures p in locals.Values || (IsParent(parents, p) && p in a)
  {
    var n := |ids| - 1;
    assert ids == ids[..n] + [ids[n]];
    if p in PrefixesFor(ids[n], locals, parents, a) {
      if ids[n] !in locals {
        RegisteredOnlyMembers(parents[ids[n]], a, p);
      }
      assert ids[n] in ids;
    } else {
      CandidateOrigin(ids[..n], locals, parents, a, p);
    }
  }

  lemma {:induction false} CandidatesOfId(ids: seq<string>, locals: map<string, Prefix>,
                                          parents: map<string, seq<Prefix>>,
                                          a: Allocator, id: string, p: Prefix)
    requires id in ids && p in PrefixesFor(id, locals, parents, a)
    ensures p in CandidatesFor(ids, locals, parents, a)
  {
    var n := |ids| - 1;
    assert ids == ids[..n] + [ids[n]];
    if id in ids[..n] {
      CandidatesOfId(ids[..n], locals, parents, a, id, p);
    } else {
      assert id == ids[n];
    }
  }

  /** A configured parent that a rule names is tried if and only if the allocator knows it, so
      that a new parent is passed over until the next rebuild. */
  lemma ParentTriedIffRegistered(ids: seq<string>, locals: map<string, Prefix>, parents: map<string, seq<Prefix>>,
                                 a: Allocator, id: string, p: Prefix)
    requires id in ids && id !in locals && id in parents && p in parents[id] && p !in locals.Values
    ensures p in CandidatesFor(ids, locals, parents, a) <==> p in a
  {
    RegisteredOnlyMembers(parents[id], a, p);
    if p in a {
      CandidatesOfId(ids, locals, parents, a, id, p);
    } else if p in CandidatesFor(ids, locals, parents, a) {
      CandidateOrigin(ids, locals, parents, a, p);
    }
  }

  lemma {:induction false} LocalsAreBlocks(injs: seq<Injection>, trace: seq<Pick>, id: string)
    requires |trace| <= |injs| && id in LocalsAfter(injs, trace)
    ensures exists k :: 0 <= k < |trace| && Names(injs[k], id) && trace[k].block == LocalsAfter(injs, trace)[id]
  {
    var n := |trace| - 1;
    if Names(injs[n], id) {
    } else {
      LocalsAreBlocks(injs, trace[..n], id);
      var k :| 0 <= k < n && Names(injs[k], id) && trace[..n][k].block == LocalsAfter(injs, trace[..n])[id];
      assert trace[k].block == LocalsAfter(injs, trace)[id];
    }
  }

  lemma {:induction false} NamedIsLocal(injs: seq<Injection>, trace: seq<Pick>, k: nat)
    requires k < |trace| <= |injs| && injs[k].id != ""
    ensures injs[k].id in LocalsAfter(injs, trace)
  {
    var n := |trace| - 1;
    if k < n {
      NamedIsLocal(injs, trace[..n], k);
    }
  }

  // ----- Where the blocks lie -----

  /** The picks keep a forest s that contains the configured parents, and add their blocks to
      it.  Each block lies strictly inside a configured parent, and of the blocks in s it
      meets only those around that parent. */
  ghost predicate BlockPlaced(s: set<Prefix>, parents: map<string, seq<Prefix>>, block: Prefix) {
    exists p :: IsParent(parents, p) && p in s && StrictlyCovers(p, block)
      && forall x | x in s && Overlaps(x, block) :: Covers(x, p)
  }

  ghost predicate AllPlaced(s: set<Prefix>, parents: map<string, seq<Prefix>>, blocks: set<Prefix>) {
    forall c | c in blocks :: BlockPlaced(s, parents, c)
  }

  lemma {:induction false} TracePlaced(a: Allocator, s: set<Prefix>, injs: seq<Injection>,
                                       parents: map<string, seq<Prefix>>, trace: seq<Pick>)
    requires Tree(a, s) && forall p | p in a && IsParent(parents, p) :: p in s
    requires |trace| <= |injs| && ValidTrace(a, injs, parents, trace)
    ensures Tree(StateAfter(a, trace), s + Blocks(trace))
    ensures AllPlaced(s, parents, Blocks(trace))
  {
    if trace == [] {
      assert s + Blocks(trace) == s;
    } else {
      var n := |trace| - 1;
      TracePlaced(a, s, injs, parents, trace[..n]);
      PlaceOne(a, s, injs, parents, trace[..n], trace[n]);
      TraceGrows(a, s, trace);
    }
  }

  lemma TraceGrows(a: Allocator, s: set<Prefix>, trace: seq<Pick>)
    requires trace != []
    ensures var n := |trace| - 1;
      && StateAfter(a, trace) == StateAfter(a, trace[..n])[trace[n].block := Some(trace[n].host)]
      && Blocks(trace) == Blocks(trace[..n]) + {trace[n].block}
      && s + Blocks(trace) == s + Blocks(trace[..n]) + {trace[n].block}
  {
    assert s + Blocks(trace) == s + Blocks(trace[..|trace| - 1]) + {trace[|trace| - 1].block};
  }

  lemma PlaceOne(a: Allocator, s: set<Prefix>, injs: seq<Injection>, parents: map<string, seq<Prefix>>,
                 trace: seq<Pick>, pick: Pick)
    requires forall p | p in a && IsParent(parents, p) :: p in s
    requires |trace| < |injs| && ValidTrace(a, injs, parents, trace) && ValidPick(a, injs, parents, trace, pick)
    requires Tree(StateAfter(a, trace), s + Blocks(trace))
    requires AllPlaced(s, parents, Blocks(trace))
    ensures Tree(StateAfter(a, trace)[pick.block := Some(pick.host)], s + Blocks(trace) + {pick.block})
    ensures AllPlaced(s, parents, Blocks(trace) + {pick.block})
  {
    var now := StateAfter(a, trace);
    StateAfterKeys(a, injs, parents, trace);
    HostPlaced(a, s, injs, parents, trace, pick);
    GrowTree(now, s + Blocks(trace), pick.host, pick.block);
    PickPlaced(s, Blocks(trace), parents, pick.host, pick.block);
  }

  lemma HostPlaced(a: Allocator, s: set<Prefix>, injs: seq<Injection>, parents: map<string, seq<Prefix>>,
                   trace: seq<Pick>, pick: Pick)
    requires forall p | p in a && IsParent(parents, p) :: p in s
    requires |trace| < |injs| && ValidPick(a, injs, parents, trace, pick)
    requires StateAfter(a, trace).Keys == a.Keys + Blocks(trace)
    requires Tree(StateAfter(a, trace), s + Blocks(trace))
    ensures pick.host in Blocks(trace) || (pick.host in s && IsParent(parents, pick.host))
  {
    var now := StateAfter(a, trace);
    var locals := LocalsAfter(injs, trace);
    CandidateOrigin(pick.ids, locals, parents, now, pick.host);
    if pick.host in locals.Values {
      var id :| id in locals && locals[id] == pick.host;
      LocalsAreBlocks(injs, trace, id);
      BlocksMembers(trace, pick.host);
    }
  }

  lemma PickPlaced(s: set<Prefix>, earlier: set<Prefix>, parents: map<string, seq<Prefix>>, host: Prefix, block: Prefix)
    requires StrictlyCovers(host, block)
    requires host in earlier || (host in s && IsParent(parents, host))
    requires forall c | c in earlier :: BlockPlaced(s, parents, c)
    requires forall x | x in s && Overlaps(x, block) :: Covers(x, host)
    ensures BlockPlaced(s, parents, block)
  {
    var p := host;
    if host in earlier {
      p :| IsParent(parents, p) && p in s && StrictlyCovers(p, host)
        && forall x | x in s && Overlaps(x, host) :: Covers(x, p);
      forall x | x in s && Overlaps(x, block)
        ensures Covers(x, p)
      {
        NestedOrDisjoint(x, host);
      }
    }
    assert StrictlyCovers(p, block);
  }

  /** On success every injection has a block of exactly the requested size, found at every
      path of the injection; its host had room for it when all candidates before it had none
      (that is what ValidTrace says). */
  lemma GeneratedBlocks(a: Allocator, rule: Rule, parents: map<string, seq<Prefix>>, trace: seq<Pick>,
                        raw: map<string, Prefix>, b: Allocator)
    requires GenerateSpec(a, rule.injections, parents, trace, Some(raw), b)
    requires NoDuplicates(AllPaths(rule.injections))
    ensures forall p :: p in raw <==> p in AllPaths(rule.injections)
    ensures forall k, p | 0 <= k < |trace| && p in GetPaths(rule.injections[k]) :: p in raw && raw[p] == trace[k].block
    ensures forall k | 0 <= k < |trace| :: trace[k].block.len == rule.injections[k].subnetSize
  {
    var injs := rule.injections;
    assert injs[..|trace|] == injs;
    forall p
      ensures p in raw <==> p in AllPaths(injs)
    {
      RawKeys(injs, trace, p);
    }
    forall k, p | 0 <= k < |trace| && p in GetPaths(injs[k])
      ensures p in raw && raw[p] == trace[k].block
    {
      RawAt(injs, trace, k, p);
    }
    SizesAsked(a, injs, parents, trace);
  }

  /** The allocator has changed by the new blocks only. */
  lemma GeneratedFrame(a: Allocator, injs: seq<Injection>, parents: map<string, seq<Prefix>>, trace: seq<Pick>,
                       raw: map<string, Prefix>, b: Allocator)
    requires GenerateSpec(a, injs, parents, trace, Some(raw), b)
    ensures b.Keys == a.Keys + Blocks(trace) && Blocks(trace) !! a.Keys
    ensures forall x | x in a :: b[x] == a[x]
  {
    StateAfterKeys(a, injs, parents, trace);
  }

  lemma {:induction false} SizesAsked(a: Allocator, injs: seq<Injection>, parents: map<string, seq<Prefix>>,
                                      trace: seq<Pick>)
    requires |trace| <= |injs| && ValidTrace(a, injs, parents, trace)
    ensures forall k | 0 <= k < |trace| :: trace[k].block.len == injs[k].subnetSize
  {
    if trace != [] {
      var n := |trace| - 1;
      SizesAsked(a, injs, parents, trace[..n]);
      assert forall k | 0 <= k < n :: trace[..n][k] == trace[k];
    }
  }

  lemma {:induction false} StateAfterKeys(a: Allocator, injs: seq<Injection>, parents: map<string, seq<Prefix>>,
                                          trace: seq<Pick>)
    requires |trace| <= |injs| && ValidTrace(a, injs, parents, trace)
    ensures Blocks(trace) !! a.Keys
    ensures StateAfter(a, trace).Keys == a.Keys + Blocks(trace)
    ensures forall x | x in a :: StateAfter(a, trace)[x] == a[x]
    ensures forall x | x in Blocks(trace) :: StateAfter(a, trace)[x].Some?
  {
    if trace != [] {
      StateAfterKeys(a, injs, parents, trace[..|trace| - 1]);
    }
  }

  lemma {:induction false} RawKeys(injs: seq<Injection>, trace: seq<Pick>, p: string)
    requires |trace| <= |injs|
    ensures p in RawAfter(injs, trace) <==> p in AllPaths(injs[..|trace|])
  {
    if trace != [] {
      var n := |trace| - 1;
      assert injs[..n + 1][..n] == injs[..n];
      RawKeys(injs, trace[..n], p);
    }
  }

  /** With all paths distinct, an injection's paths keep the block they were given. */
  lemma {:induction false} RawAt(injs: seq<Injection>, trace: seq<Pick>, k: nat, p: string)
    requires k < |trace| <= |injs| && NoDuplicates(AllPaths(injs[..|trace|])) && p in GetPaths(injs[k])
    ensures p in RawAfter(injs, trace) && RawAfter(injs, trace)[p] == trace[k].block
  {
    var n := |trace| - 1;
    if k < n {
      assert injs[..n + 1][..n] == injs[..n];
      NoDuplicatesAppend(AllPaths(injs[..n]), GetPaths(injs[n]));
      RawAt(injs, trace[..n], k, p);
      RawKeys(injs, trace[..n], p);
    }
  }

  // ----- What an accepted configuration buys -----

  /** For an injection that lists parents, every listed id resolves, and every candidate is
      strictly larger than the block asked for. */
  lemma AcceptedMeansWellFormed(a: Allocator, injs: seq<Injection>, parents: map<string, seq<Prefix>>, trace: seq<Pick>,
                                ids: seq<string>)
    requires ParentsUsable(injs, parents)
    requires |trace| < |injs| && ValidTrace(a, injs, parents, trace)
    requires injs[|trace|].parents != [] && IdsFor(injs[|trace|], parents, ids)
    ensures forall id | id in ids :: id in LocalsAfter(injs, trace) || id in parents
    ensures var now := StateAfter(a, trace);
      forall p | p in CandidatesFor(ids, LocalsAfter(injs, trace), parents, now) :: p.len < injs[|trace|].subnetSize
  {
    var n := |trace|;
    var now, locals := StateAfter(a, trace), LocalsAfter(injs, trace);
    forall id | id in ids
      ensures id in locals || id in parents
    {
      assert ParentUsable(injs, parents, n, id);
      if id !in parents {
        var j :| 0 <= j < n && Names(injs[j], id);
        NamedIsLocal(injs, trace, j);
      }
    }
    SizesAsked(a, injs, parents, trace);
    forall p | p in CandidatesFor(ids, locals, parents, now)
      ensures p.len < injs[n].subnetSize
    {
      CandidateOrigin(ids, locals, parents, now, p);
      var id :| id in ids && p in PrefixesFor(id, locals, parents, now);
      assert ParentUsable(injs, parents, n, id);
      if id in locals {
        LocalsAreBlocks(injs, trace, id);
      } else {
        RegisteredOnlyMembers(parents[id], now, p);
        assert AllLarger(parents[id], injs[n].subnetSize);
      }
    }
  }

  /** Injections each of which may take its block from the one before in the chain. */
  ghost predicate LocalChain(injs: seq<Injection>, chain: seq<nat>) {
    && (forall i | 0 <= i < |chain| :: chain[i] < |injs|)
    && (forall i, j | 0 <= i < |chain| && j == i + 1 && j < |chain| ::
          chain[i] < chain[j] && injs[chain[i]].id != "" && injs[chain[i]].id in injs[chain[j]].parents)
  }

  /** Mask lengths grow along a chain of local parents, so it has at most 33 members. */
  lemma {:induction false} LocalChainsAreShort(injs: seq<Injection>, parents: map<string, seq<Prefix>>, chain: seq<nat>)
    requires ParentsUsable(injs, parents) && LocalChain(injs, chain)
    ensures chain != [] ==> |chain| - 1 <= injs[chain[|chain| - 1]].subnetSize
    ensures |chain| <= 33
  {
    if |chain| > 1 {
      var n := |chain| - 1;
      var init := chain[..n];
      LocalChainsAreShort(injs, parents, init);
      var i, j := chain[n - 1], chain[n];
      assert ParentUsable(injs, parents, j, injs[i].id);
      assert Names(injs[i], injs[i].id);
    }
  }

  // ----- Rollback -----

  /** Whatever the library does when a block with children is released, a failed rule never
      touches a block that was registered before, and leaves at most its own blocks behind. */
  lemma FailureFrame(a: Allocator, injs: seq<Injection>, parents: map<string, seq<Prefix>>, trace: seq<Pick>,
                     b: Allocator)
    requires GenerateSpec(a, injs, parents, trace, None, b)
    ensures forall x | x in a :: x in b && b[x] == a[x]
    ensures b.Keys <= a.Keys + Blocks(trace) && forall x | x in b && x !in a :: b[x].Some?
  {
    StateAfterKeys(a, injs, parents, trace);
    var raw := RawAfter(injs, trace);
    var order: seq<string> :|
      Enumerates(order, raw.Keys) && ReleasedInOrder(StateAfter(a, trace), ValuesIn(order, raw), b);
    OnlyBlocksListed(injs, trace, order);
    RollbackFrame(StateAfter(a, trace), ValuesIn(order, raw), b);
  }

  lemma OnlyBlocksListed(injs: seq<Injection>, trace: seq<Pick>, order: seq<string>)
    requires |trace| <= |injs| && forall p | p in order :: p in RawAfter(injs, trace)
    ensures forall c | c in ValuesIn(order, RawAfter(injs, trace)) :: c in Blocks(trace)
  {
    var raw := RawAfter(injs, trace);
    forall c | c in ValuesIn(order, raw)
      ensures c in Blocks(trace)
    {
      var i :| 0 <= i < |order| && ValuesIn(order, raw)[i] == c;
      RawValues(injs, trace, order[i]);
    }
  }

  lemma {:induction false} RawValues(injs: seq<Injection>, trace: seq<Pick>, p: string)
    requires |trace| <= |injs| && p in RawAfter(injs, trace)
    ensures RawAfter(injs, trace)[p] in Blocks(trace)
  {
    var n := |trace| - 1;
    if p !in GetPaths(injs[n]) {
      RawValues(injs, trace[..n], p);
    }
  }

  lemma {:induction false} RollbackFrame(a: Allocator, blocks: seq<Prefix>, b: Allocator)
    requires ReleasedInOrder(a, blocks, b)
    ensures b.Keys <= a.Keys
    ensures forall x | x in a && x !in blocks :: x in b
    ensures forall x | x in b :: b[x] == a[x]
  {
    if blocks != [] {
      var n := |blocks| - 1;
      var c :| ReleasedInOrder(a, blocks[..n], c) && ReleasesTo(c, blocks[n], b);
      RollbackFrame(a, blocks[..n], c);
      assert blocks == blocks[..n] + [blocks[n]];
    }
  }

  /** The parents of registered blocks are registered: nothing dangles. */
  ghost predicate LinksRegistered(a: Allocator) {
    forall x | x in a && a[x].Some? :: a[x].value in a
  }

  /** No block of the trace came from another one of it. */
  ghost predicate HostsFrom(a: Allocator, trace: seq<Pick>) {
    forall k | 0 <= k < |trace| :: trace[k].host in a
  }

  /** Nothing registered before has a block of the trace as its parent. */
  ghost predicate NoOldChildren(a: Allocator, trace: seq<Pick>) {
    forall x, c | x in a && c in Blocks(trace) :: a[x] != Some(c)
  }

  lemma LinkedMeansNoOldChildren(a: Allocator, injs: seq<Injection>, parents: map<string, seq<Prefix>>,
                                 trace: seq<Pick>)
    requires |trace| <= |injs| && ValidTrace(a, injs, parents, trace) && LinksRegistered(a)
    ensures NoOldChildren(a, trace)
  {
    StateAfterKeys(a, injs, parents, trace);
  }

  lemma {:induction false} LinkOfBlock(a: Allocator, injs: seq<Injection>, parents: map<string, seq<Prefix>>,
                                       trace: seq<Pick>)
    requires |trace| <= |injs| && ValidTrace(a, injs, parents, trace) && HostsFrom(a, trace)
    ensures forall c | c in Blocks(trace) ::
      c in StateAfter(a, trace) && StateAfter(a, trace)[c].Some? && StateAfter(a, trace)[c].value in a
  {
    if trace != [] {
      var n := |trace| - 1;
      assert forall k | 0 <= k < n :: trace[..n][k] == trace[k];
      LinkOfBlock(a, injs, parents, trace[..n]);
    }
  }

  /** Releasing leaves in any order, with repetitions, removes exactly those. */
  lemma {:induction false} LeavesReleased(a: Allocator, leaves: set<Prefix>, blocks: seq<Prefix>, b: Allocator)
    requires leaves <= a.Keys && (forall c | c in blocks :: c in leaves)
    requires forall c | c in leaves :: a[c].Some? && a[c].value in a && a[c].value !in leaves
    requires forall x, c | x in a && c in leaves :: a[x] != Some(c)
    requires ReleasedInOrder(a, blocks, b)
    ensures b == a - (set c | c in blocks)
  {
    if blocks == [] {
      assert a - (set c | c in blocks) == a;
    } else {
      var n := |blocks| - 1;
      var last := blocks[n];
      var mid :| ReleasedInOrder(a, blocks[..n], mid) && ReleasesTo(mid, last, b);
      assert blocks == blocks[..n] + [last];
      LeavesReleased(a, leaves, blocks[..n], mid);
      var gone := set c | c in blocks[..n];
      assert (set c | c in blocks) == gone + {last};
      OneLeafLess(a, leaves, gone, last, mid, b);
    }
  }

  lemma OneLeafLess(a: Allocator, leaves: set<Prefix>, gone: set<Prefix>, last: Prefix, mid: Allocator, b: Allocator)
    requires last in leaves && leaves <= a.Keys && gone <= leaves && mid == a - gone && ReleasesTo(mid, last, b)
    requires forall c | c in leaves :: a[c].Some? && a[c].value in a && a[c].value !in leaves
    requires forall x, c | x in a && c in leaves :: a[x] != Some(c)
    ensures b == a - (gone + {last})
  {
    if last in mid {
      assert Releasable(mid, last);
    } else {
      assert last in gone;
    }
    assert a - gone - {last} == a - (gone + {last});
  }

  /** A rule without local parents that fails leaves the allocator exactly as it was, for
      every order in which the recorded paths are visited and although one block may be
      listed under several of them.  None of its blocks may be the parent of something that was
      registered all the time, as it can be after the release of a nested list. */
  lemma RollbackRestores(a: Allocator, injs: seq<Injection>, parents: map<string, seq<Prefix>>, trace: seq<Pick>,
                         b: Allocator)
    requires GenerateSpec(a, injs, parents, trace, None, b)
    requires HostsFrom(a, trace) && NoOldChildren(a, trace)
    requires HavePaths(injs) && NoDuplicates(AllPaths(injs))
    ensures b == a
  {
    var now, raw := StateAfter(a, trace), RawAfter(injs, trace);
    var order: seq<string> :| Enumerates(order, raw.Keys) && ReleasedInOrder(now, ValuesIn(order, raw), b);
    var blocks := ValuesIn(order, raw);
    RawListsAllBlocks(injs, trace, order);
    BlocksAreLeaves(a, injs, parents, trace);
    assert forall c | c in blocks :: c in (set x | x in blocks);
    LeavesReleased(now, Blocks(trace), blocks, b);
  }

  lemma {:induction false} SomeOrder(keys: set<string>) returns (order: seq<string>)
    ensures Enumerates(order, keys)
  {
    if keys == {} {
      order := [];
    } else {
      var k :| k in keys;
      var rest := SomeOrder(keys - {k});
      order := rest + [k];
    }
  }

  lemma {:induction false} RefusedThroughout(a: Allocator, blocks: seq<Prefix>, c: Prefix)
    requires c in a && !Releasable(a, c) && forall i | 0 <= i < |blocks| :: blocks[i] == c
    ensures ReleasedInOrder(a, blocks, a)
  {
    if blocks != [] {
      RefusedThroughout(a, blocks[..|blocks| - 1], c);
      assert ReleaseSpec(a, c, Refused, a) && ReleasesTo(a, blocks[|blocks| - 1], a);
    }
  }

  lemma {:induction false} OthersReleased(a: Allocator, head: seq<Prefix>, rest: seq<Prefix>,
                                          c: Prefix) returns (b: Allocator)
    requires ReleasedInOrder(a, head, a) && c in a && c !in rest
    ensures ReleasedInOrder(a, head + rest, b) && c in b
  {
    if rest == [] {
      b := a;
      assert head + rest == head;
    } else {
      var n := |rest| - 1;
      var mid := OthersReleased(a, head, rest[..n], c);
      b := mid - {rest[n]};
      MayRelease(mid, rest[n]);
      OneMoreRolledBack(a, head + rest[..n], mid, rest[n], b);
      assert head + rest == head + rest[..n] + [rest[n]];
    }
  }

  lemma MayRelease(a: Allocator, x: Prefix)
    ensures ReleasesTo(a, x, a - {x})
  {
    assert ReleaseSpec(a, x, if x in a then Released else NotFound, a - {x});
  }

  lemma OneMoreRolledBack(a: Allocator, blocks: seq<Prefix>, mid: Allocator, x: Prefix, b: Allocator)
    requires ReleasedInOrder(a, blocks, mid) && ReleasesTo(mid, x, b)
    ensures ReleasedInOrder(a, blocks + [x], b)
  {
    assert (blocks + [x])[..|blocks|] == blocks;
  }

  lemma JoinedOrder(head: seq<string>, first: set<string>, rest: seq<string>, others: set<string>)
    requires Enumerates(head, first) && Enumerates(rest, others) && first !! others
    ensures Enumerates(head + rest, first + others)
  {
    var order := head + rest;
    forall i, j | 0 <= i < j < |order|
      ensures order[i] != order[j]
    {
      if i < |head| <= j {
        assert order[i] in first && order[j] in others;
      }
    }
    assert forall k | k in order :: k in head || k in rest;
    assert forall k | k in head || k in rest :: k in order;
  }

  /** A block that has a child of the same rule may survive the rollback: the library need not
      release it, and it may be visited first. */
  lemma ParentSurvives(now: Allocator, raw: map<string, Prefix>, c: Prefix) returns (b: Allocator)
    requires c in now && !Releasable(now, c)
    ensures RolledBack(now, raw, b) && c in b
  {
    var first := set p | p in raw && raw[p] == c;
    var head := SomeOrder(first);
    var rest := SomeOrder(raw.Keys - first);
    JoinedOrder(head, first, rest, raw.Keys - first);
    assert first + (raw.Keys - first) == raw.Keys;
    ValuesSplit(raw, c, head, rest);
    RefusedThroughout(now, ValuesIn(head, raw), c);
    b := OthersReleased(now, ValuesIn(head, raw), ValuesIn(rest, raw), c);
  }

  lemma ValuesSplit(raw: map<string, Prefix>, c: Prefix, head: seq<string>, rest: seq<string>)
    requires forall p | p in head :: p in raw && raw[p] == c
    requires forall p | p in rest :: p in raw && raw[p] != c
    ensures forall i | 0 <= i < |head| :: ValuesIn(head, raw)[i] == c
    ensures c !in ValuesIn(rest, raw)
    ensures ValuesIn(head + rest, raw) == ValuesIn(head, raw) + ValuesIn(rest, raw)
  {
    assert forall i | 0 <= i < |head| :: head[i] in head;
    assert forall i | 0 <= i < |rest| :: rest[i] in rest;
  }

  /** The rollback of a rule that got stuck is sure to restore the allocator if and only if no
      block was acquired from another block of the rule, nor is the parent of an older one. */
  lemma RollbackRestoresIff(a: Allocator, injs: seq<Injection>, parents: map<string, seq<Prefix>>, trace: seq<Pick>)
    requires |trace| < |injs| && ValidTrace(a, injs, parents, trace) && Stuck(a, injs, parents, trace)
    requires HavePaths(injs) && NoDuplicates(AllPaths(injs))
    ensures (forall b | GenerateSpec(a, injs, parents, trace, None, b) :: b == a)
      <==> HostsFrom(a, trace) && NoOldChildren(a, trace)
  {
    if HostsFrom(a, trace) && NoOldChildren(a, trace) {
      forall b | GenerateSpec(a, injs, parents, trace, None, b)
        ensures b == a
      {
        RollbackRestores(a, injs, parents, trace, b);
      }
    } else {
      var c := BlockWithChild(a, injs, parents, trace);
      var b := ParentSurvives(StateAfter(a, trace), RawAfter(injs, trace), c);
      assert GenerateSpec(a, injs, parents, trace, None, b) && b != a;
    }
  }

  lemma BlockWithChild(a: Allocator, injs: seq<Injection>, parents: map<string, seq<Prefix>>,
                       trace: seq<Pick>) returns (c: Prefix)
    requires |trace| <= |injs| && ValidTrace(a, injs, parents, trace)
    requires !HostsFrom(a, trace) || !NoOldChildren(a, trace)
    ensures c !in a && c in StateAfter(a, trace) && !Releasable(StateAfter(a, trace), c)
  {
    StateAfterKeys(a, injs, parents, trace);
    if k :| 0 <= k < |trace| && trace[k].host !in a {
      c := trace[k].host;
      HostHasChild(a, injs, parents, trace, k);
    } else {
      var x, d :| x in a && d in Blocks(trace) && a[x] == Some(d);
      c := d;
      assert StateAfter(a, trace)[x] == Some(d);
    }
  }

  lemma {:induction false} HostHasChild(a: Allocator, injs: seq<Injection>, parents: map<string, seq<Prefix>>,
                                        trace: seq<Pick>, k: nat)
    requires k < |trace| <= |injs| && ValidTrace(a, injs, parents, trace)
    ensures var now := StateAfter(a, trace);
      && trace[k].host in now && trace[k].block in now && now[trace[k].block] == Some(trace[k].host)
    decreases |trace|
  {
    var n := |trace| - 1;
    LastPick(a, injs, parents, trace);
    if k < n {
      HostHasChild(a, injs, parents, trace[..n], k);
      assert trace[..n][k] == trace[k];
      ChildStays(StateAfter(a, trace[..n]), trace[n].host, trace[n].block, trace[k].host, trace[k].block);
    }
  }

  lemma ChildStays(a: Allocator, p: Prefix, c: Prefix, host: Prefix, block: Prefix)
    requires Fits(a, p, c) && host in a && block in a && a[block] == Some(host)
    ensures var b := a[c := Some(p)]; host in b && block in b && b[block] == Some(host)
  {
  }

  lemma LastPick(a: Allocator, injs: seq<Injection>, parents: map<string, seq<Prefix>>, trace: seq<Pick>)
    requires trace != [] && |trace| <= |injs| && ValidTrace(a, injs, parents, trace)
    ensures var n := |trace| - 1;
      && ValidTrace(a, injs, parents, trace[..n]) && ValidPick(a, injs, parents, trace[..n], trace[n])
      && Fits(StateAfter(a, trace[..n]), trace[n].host, trace[n].block)
      && StateAfter(a, trace) == StateAfter(a, trace[..n])[trace[n].block := Some(trace[n].host)]
  {
  }

  lemma BlocksAreLeaves(a: Allocator, injs: seq<Injection>, parents: map<string, seq<Prefix>>, trace: seq<Pick>)
    requires |trace| <= |injs| && ValidTrace(a, injs, parents, trace) && HostsFrom(a, trace) && NoOldChildren(a, trace)
    ensures var now := StateAfter(a, trace);
      && Blocks(trace) <= now.Keys && now - Blocks(trace) == a
      && (forall c | c in Blocks(trace) :: now[c].Some? && now[c].value in now && now[c].value !in Blocks(trace))
      && (forall x, c | x in now && c in Blocks(trace) :: now[x] != Some(c))
  {
    StateAfterKeys(a, injs, parents, trace);
    LinkOfBlock(a, injs, parents, trace);
    assert StateAfter(a, trace) - Blocks(trace) == a;
  }

  lemma RawListsAllBlocks(injs: seq<Injection>, trace: seq<Pick>, order: seq<string>)
    requires |trace| <= |injs| && HavePaths(injs) && NoDuplicates(AllPaths(injs))
    requires Enumerates(order, RawAfter(injs, trace).Keys)
    ensures (set c | c in ValuesIn(order, RawAfter(injs, trace))) == Blocks(trace)
  {
    var raw := RawAfter(injs, trace);
    var blocks := ValuesIn(order, raw);
    forall c | c in blocks
      ensures c in Blocks(trace)
    {
      var i :| 0 <= i < |order| && blocks[i] == c;
      RawValues(injs, trace, order[i]);
    }
    forall c | c in Blocks(trace)
      ensures c in blocks
    {
      BlocksMembers(trace, c);
      var k :| 0 <= k < |trace| && trace[k].block == c;
      BlockIsListed(injs, trace, order, k);
    }
  }

  lemma BlockIsListed(injs: seq<Injection>, trace: seq<Pick>, order: seq<string>, k: nat)
    requires k < |trace| <= |injs| && HavePaths(injs) && NoDuplicates(AllPaths(injs))
    requires Enumerates(order, RawAfter(injs, trace).Keys)
    ensures trace[k].block in ValuesIn(order, RawAfter(injs, trace))
  {
    assert GetPaths(injs[k]) != [];
    var p := GetPaths(injs[k])[0];
    AllPathsPrefix(injs, |trace|);
    RawAt(injs, trace, k, p);
    var i :| 0 <= i < |order| && order[i] == p;
    assert ValuesIn(order, RawAfter(injs, trace))[i] == trace[k].block;
  }

  lemma {:induction false} AllPathsPrefix(injs: seq<Injection>, n: nat)
    requires n <= |injs| && NoDuplicates(AllPaths(injs))
    ensures NoDuplicates(AllPaths(injs[..n]))
    decreases |injs| - n
  {
    if n < |injs| {
      AllPathsPrefix(injs, n + 1);
      assert injs[..n + 1][..n] == injs[..n];
      NoDuplicatesAppend(AllPaths(injs[..n]), GetPaths(injs[n]));
    } else {
      assert injs[..n] == injs;
    }
  }
}
