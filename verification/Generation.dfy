/** Generating the blocks of one injection rule: for every injection the first candidate
    parent with room, in the order of the parent lists, blocks generated earlier for the
    same rule being candidates by their injection's id; on failure, what was acquired so far
    is released again. */
module Generation {
  import opened Prefixes
  import opened Forest
  import opened GoIpam
  import opened Config

  /** What happened for one injection: the order in which parent ids were tried, the parent
      that had room, and the block acquired from it. */
  datatype Pick = Pick(ids: seq<string>, host: Prefix, block: Prefix)

  // ----- The state after the first picks -----

  function StateAfter(a: Allocator, trace: seq<Pick>): Allocator {
    if trace == [] then a
    else
      var last := trace[|trace| - 1];
      StateAfter(a, trace[..|trace| - 1])[last.block := Some(last.host)]
  }

  /** The blocks that carry an injection id (tmpParents in the code). */
  function LocalsAfter(injs: seq<Injection>, trace: seq<Pick>): map<string, Prefix>
    requires |trace| <= |injs|
  {
    if trace == [] then map[]
    else
      var n := |trace| - 1;
      var before := LocalsAfter(injs, trace[..n]);
      if injs[n].id != "" then before[injs[n].id := trace[n].block] else before
  }

  function SetPaths(raw: map<string, Prefix>, paths: seq<string>, block: Prefix): map<string, Prefix> {
    map p | p in raw.Keys + (set q | q in paths) :: if p in paths then block else raw[p]
  }

  /** Path to block, for the injections handled so far. */
  function RawAfter(injs: seq<Injection>, trace: seq<Pick>): map<string, Prefix>
    requires |trace| <= |injs|
  {
    if trace == [] then map[]
    else
      var n := |trace| - 1;
      SetPaths(RawAfter(injs, trace[..n]), GetPaths(injs[n]), trace[n].block)
  }

  // ----- The candidates of one injection -----

  function RegisteredOnly(cidrs: seq<Prefix>, a: Allocator): seq<Prefix> {
    if cidrs == [] then []
    else
      var n := |cidrs| - 1;
      RegisteredOnly(cidrs[..n], a) + (if cidrs[n] in a then [cidrs[n]] else [])
  }

  function PrefixesFor(id: string, locals: map<string, Prefix>, parents: map<string, seq<Prefix>>,
                       a: Allocator): seq<Prefix> {
    if id in locals then [locals[id]]
    else if id in parents then RegisteredOnly(parents[id], a)
    else []
  }

  function CandidatesFor(ids: seq<string>, locals: map<string, Prefix>, parents: map<string, seq<Prefix>>,
                         a: Allocator): seq<Prefix> {
    if ids == [] then []
    else
      var n := |ids| - 1;
      CandidatesFor(ids[..n], locals, parents, a) + PrefixesFor(ids[n], locals, parents, a)
  }

  /** The listed parents in order; with an empty list all configured ids, in any order. */
  predicate IdsFor(inj: Injection, parents: map<string, seq<Prefix>>, ids: seq<string>) {
    if inj.parents != [] then ids == inj.parents else Enumerates(ids, parents.Keys)
  }

  ghost predicate NoneFits(a: Allocator, candidates: seq<Prefix>, len: nat) {
    forall i | 0 <= i < |candidates| :: !CanHost(a, candidates[i], len)
  }

  /** The block was acquired from the first candidate with room for it. */
  ghost predicate FirstFit(a: Allocator, candidates: seq<Prefix>, len: nat, host: Prefix, block: Prefix) {
    && block.len == len && Fits(a, host, block)
    && exists j :: 0 <= j < |candidates| && candidates[j] == host && NoneFits(a, candidates[..j], len)
  }

  ghost predicate ValidPick(a: Allocator, injs: seq<Injection>, parents: map<string, seq<Prefix>>, trace: seq<Pick>,
                            pick: Pick)
    requires |trace| < |injs|
  {
    var now := StateAfter(a, trace);
    && IdsFor(injs[|trace|], parents, pick.ids)
    && FirstFit(now, CandidatesFor(pick.ids, LocalsAfter(injs, trace), parents, now), injs[|trace|].subnetSize,
                pick.host, pick.block)
  }

  ghost predicate ValidTrace(a: Allocator, injs: seq<Injection>, parents: map<string, seq<Prefix>>, trace: seq<Pick>)
    requires |trace| <= |injs|
  {
    trace == [] ||
    (ValidTrace(a, injs, parents, trace[..|trace| - 1])
     && ValidPick(a, injs, parents, trace[..|trace| - 1], trace[|trace| - 1]))
  }

  /** No candidate has room for the next injection. */
  ghost predicate Stuck(a: Allocator, injs: seq<Injection>, parents: map<string, seq<Prefix>>, trace: seq<Pick>)
    requires |trace| < |injs|
  {
    var now := StateAfter(a, trace);
    exists ids :: IdsFor(injs[|trace|], parents, ids)
      && NoneFits(now, CandidatesFor(ids, LocalsAfter(injs, trace), parents, now), injs[|trace|].subnetSize)
  }

  // ----- Rolling back -----

  ghost predicate ReleasesTo(a: Allocator, block: Prefix, b: Allocator) {
    exists out :: ReleaseSpec(a, block, out, b)
  }

  /** b is a possible state after releasing the blocks one by one, ignoring errors. */
  ghost predicate ReleasedInOrder(a: Allocator, blocks: seq<Prefix>, b: Allocator) {
    if blocks == [] then b == a
    else
      var init, last := blocks[..|blocks| - 1], blocks[|blocks| - 1];
      exists c :: ReleasedInOrder(a, init, c) && ReleasesTo(c, last, b)
  }

  function ValuesIn(order: seq<string>, raw: map<string, Prefix>): (r: seq<Prefix>)
    requires forall p | p in order :: p in raw
    ensures |r| == |order| && forall i | 0 <= i < |r| :: r[i] == raw[order[i]]
  {
    seq(|order|, i requires 0 <= i < |order| => raw[order[i]])
  }

  ghost predicate RolledBack(a: Allocator, raw: map<string, Prefix>, b: Allocator) {
    exists order: seq<string> :: Enumerates(order, raw.Keys) && ReleasedInOrder(a, ValuesIn(order, raw), b)
  }

  /** The outcome of generating the blocks of a rule. */
  ghost predicate GenerateSpec(a: Allocator, injs: seq<Injection>, parents: map<string, seq<Prefix>>,
                               trace: seq<Pick>, r: Option<map<string, Prefix>>, b: Allocator) {
    && |trace| <= |injs| && ValidTrace(a, injs, parents, trace)
    && match r
       case Some(raw) => |trace| == |injs| && raw == RawAfter(injs, trace) && b == StateAfter(a, trace)
       case None => |trace| < |injs| && Stuck(a, injs, parents, trace)
                    && RolledBack(StateAfter(a, trace), RawAfter(injs, trace), b)
  }

  // ----- The code -----

  method LookUpPrefixes(ipam: Library, id: string, tmpParents: map<string, Prefix>, parents: map<string, seq<Prefix>>)
      returns (prefixes: seq<Prefix>)
    ensures prefixes == PrefixesFor(id, tmpParents, parents, ipam.prefixes)
  {
    if id in tmpParents {
      return [tmpParents[id]];
    }
    prefixes := [];
    if id in parents {
      var cidrs := parents[id];
      for i := 0 to |cidrs|
        invariant prefixes == RegisteredOnly(cidrs[..i], ipam.prefixes)
      {
        assert cidrs[..i + 1][..i] == cidrs[..i];
        var found := ipam.PrefixFrom(cidrs[i]);
        if found {
          prefixes := prefixes + [cidrs[i]];
        }
      }
      assert cidrs[..|cidrs|] == cidrs;
    }
  }

  method TryPrefixes(ipam: Library, prefixes: seq<Prefix>, len: nat) returns (block: Option<Prefix>, host: Prefix)
    modifies ipam
    ensures block.Some? ==> FirstFit(old(ipam.prefixes), prefixes, len, host, block.value)
                            && ipam.prefixes == old(ipam.prefixes)[block.value := Some(host)]
    ensures block.None? ==> NoneFits(old(ipam.prefixes), prefixes, len) && ipam.prefixes == old(ipam.prefixes)
  {
    block, host := None, Cidr(0, 32);
    for i := 0 to |prefixes|
      invariant ipam.prefixes == old(ipam.prefixes)
      invariant NoneFits(ipam.prefixes, prefixes[..i], len)
    {
      block := ipam.AcquireChildPrefix(prefixes[i], len);
      if block.Some? {
        host := prefixes[i];
        return;
      }
    }
    block := None;
  }

  lemma FirstFitAppend(a: Allocator, s: seq<Prefix>, t: seq<Prefix>, u: seq<Prefix>, len: nat, host: Prefix,
                       block: Prefix)
    requires NoneFits(a, s, len) && FirstFit(a, t, len, host, block)
    ensures FirstFit(a, s + t + u, len, host, block)
  {
    var j :| 0 <= j < |t| && t[j] == host && NoneFits(a, t[..j], len);
    var all := s + t + u;
    assert all[|s| + j] == host;
    assert all[..|s| + j] == s + t[..j];
  }

  lemma NoneFitsAppend(a: Allocator, s: seq<Prefix>, t: seq<Prefix>, len: nat)
    requires NoneFits(a, s, len) && NoneFits(a, t, len)
    ensures NoneFits(a, s + t, len)
  {
  }

  lemma CandidatesStep(ids: seq<string>, i: nat, locals: map<string, Prefix>, parents: map<string, seq<Prefix>>,
                       a: Allocator)
    requires i < |ids|
    ensures CandidatesFor(ids[..i + 1], locals, parents, a)
         == CandidatesFor(ids[..i], locals, parents, a) + PrefixesFor(ids[i], locals, parents, a)
  {
    assert ids[..i + 1][..i] == ids[..i];
  }

  lemma {:induction false} CandidatesPrefix(ids: seq<string>, i: nat, locals: map<string, Prefix>,
                                            parents: map<string, seq<Prefix>>, a: Allocator)
      returns (rest: seq<Prefix>)
    requires i <= |ids|
    ensures CandidatesFor(ids, locals, parents, a) == CandidatesFor(ids[..i], locals, parents, a) + rest
  {
    if i == |ids| {
      rest := [];
      assert ids[..i] == ids;
    } else {
      var n := |ids| - 1;
      rest := CandidatesPrefix(ids[..n], i, locals, parents, a);
      assert ids[..n][..i] == ids[..i];
      rest := rest + PrefixesFor(ids[n], locals, parents, a);
    }
  }

  method TryParents(ipam: Library, ids: seq<string>, tmpParents: map<string, Prefix>,
                    parents: map<string, seq<Prefix>>, len: nat)
      returns (block: Option<Prefix>, host: Prefix)
    modifies ipam
    ensures block.Some? ==>
      FirstFit(old(ipam.prefixes), CandidatesFor(ids, tmpParents, parents, old(ipam.prefixes)), len, host, block.value)
                            && ipam.prefixes == old(ipam.prefixes)[block.value := Some(host)]
    ensures block.None? ==>
      NoneFits(old(ipam.prefixes), CandidatesFor(ids, tmpParents, parents, old(ipam.prefixes)), len)
                            && ipam.prefixes == old(ipam.prefixes)
  {
    block, host := None, Cidr(0, 32);
    ghost var a, tried: seq<Prefix> := ipam.prefixes, [];
    for i := 0 to |ids|
      invariant ipam.prefixes == a
      invariant tried == CandidatesFor(ids[..i], tmpParents, parents, a) && NoneFits(a, tried, len)
    {
      CandidatesStep(ids, i, tmpParents, parents, a);
      var prefixes := LookUpPrefixes(ipam, ids[i], tmpParents, parents);
      block, host := TryPrefixes(ipam, prefixes, len);
      if block.Some? {
        ghost var rest := CandidatesPrefix(ids, i + 1, tmpParents, parents, a);
        FirstFitAppend(a, tried, prefixes, rest, len, host, block.value);
        return;
      }
      NoneFitsAppend(a, tried, prefixes, len);
      tried := tried + prefixes;
    }
    assert ids[..|ids|] == ids;
    block := None;
  }

  /** The keys of a map in some order. */
  method AnyOrder(keys: set<string>) returns (order: seq<string>)
    ensures Enumerates(order, keys)
  {
    order := [];
    var todo := keys;
    while todo != {}
      invariant todo <= keys && Enumerates(order, keys - todo)
      decreases |todo|
    {
      var k :| k in todo;
      todo := todo - {k};
      order := order + [k];
    }
  }

  method ReleaseAcquired(ipam: Library, raw: map<string, Prefix>)
    modifies ipam
    ensures RolledBack(old(ipam.prefixes), raw, ipam.prefixes)
  {
    var order := AnyOrder(raw.Keys);
    ghost var blocks := ValuesIn(order, raw);
    ghost var a := ipam.prefixes;
    for i := 0 to |order|
      invariant ReleasedInOrder(a, blocks[..i], ipam.prefixes)
    {
      ghost var before := ipam.prefixes;
      var out := ipam.ReleaseChildPrefix(raw[order[i]]);
      assert blocks[..i + 1][..i] == blocks[..i];
      assert ReleasedInOrder(a, blocks[..i], before) && ReleasesTo(before, blocks[i], ipam.prefixes);
    }
    assert blocks[..|order|] == blocks;
  }

  lemma SetPathsStep(raw: map<string, Prefix>, paths: seq<string>, i: nat, block: Prefix)
    requires i < |paths|
    ensures SetPaths(raw, paths[..i + 1], block) == SetPaths(raw, paths[..i], block)[paths[i] := block]
  {
    assert paths[..i + 1] == paths[..i] + [paths[i]];
    assert forall q :: q in paths[..i + 1] <==> q in paths[..i] || q == paths[i];
  }

  method RecordPaths(raw: map<string, Prefix>, paths: seq<string>, block: Prefix) returns (raw': map<string, Prefix>)
    ensures raw' == SetPaths(raw, paths, block)
  {
    raw' := raw;
    for i := 0 to |paths|
      invariant raw' == SetPaths(raw, paths[..i], block)
    {
      SetPathsStep(raw, paths, i, block);
      raw' := raw'[paths[i] := block];
    }
    assert paths[..|paths|] == paths;
  }

  lemma OneMorePick(a: Allocator, injs: seq<Injection>, parents: map<string, seq<Prefix>>, trace: seq<Pick>, pick: Pick)
    requires |trace| < |injs| && ValidTrace(a, injs, parents, trace) && ValidPick(a, injs, parents, trace, pick)
    ensures var inj := injs[|trace|];
      && ValidTrace(a, injs, parents, trace + [pick])
      && StateAfter(a, trace + [pick]) == StateAfter(a, trace)[pick.block := Some(pick.host)]
      && RawAfter(injs, trace + [pick]) == SetPaths(RawAfter(injs, trace), GetPaths(inj), pick.block)
      && LocalsAfter(injs, trace + [pick])
         == (if inj.id != "" then LocalsAfter(injs, trace)[inj.id := pick.block] else LocalsAfter(injs, trace))
  {
    assert (trace + [pick])[..|trace|] == trace;
  }

  method GenerateCIDRsForInjectionRule(ipam: Library, rule: Rule, parents: map<string, seq<Prefix>>)
      returns (r: Option<map<string, Prefix>>, ghost trace: seq<Pick>)
    modifies ipam
    ensures GenerateSpec(old(ipam.prefixes), rule.injections, parents, trace, r, ipam.prefixes)
  {
    ghost var a := ipam.prefixes;
    var injs := rule.injections;
    var raw: map<string, Prefix>, tmpParents: map<string, Prefix> := map[], map[];
    trace := [];
    for i := 0 to |injs|
      invariant |trace| == i && ValidTrace(a, injs, parents, trace)
      invariant ipam.prefixes == StateAfter(a, trace)
      invariant raw == RawAfter(injs, trace) && tmpParents == LocalsAfter(injs, trace)
    {
      var selected := injs[i].parents;
      if |selected| == 0 {
        selected := AnyOrder(parents.Keys);
      }
      var block, host := TryParents(ipam, selected, tmpParents, parents, injs[i].subnetSize);
      if block.None? {
        assert IdsFor(injs[i], parents, selected);
        ReleaseAcquired(ipam, raw);
        return None, trace;
      }
      ghost var pick := Pick(selected, host, block.value);
      OneMorePick(a, injs, parents, trace, pick);
      raw := RecordPaths(raw, GetPaths(injs[i]), block.value);
      if injs[i].id != "" {
        tmpParents := tmpParents[injs[i].id := block.value];
      }
      trace := trace + [pick];
    }
    r := Some(raw);
  }
}
