/** Generation picks, for every injection, the first network with room: said by positions in the
    lists of the configuration, without the candidate lists the code builds. */
module FirstFit {
  import opened Prefixes
  import opened Forest
  import opened GoIpam
  import opened Config
  import opened ConfigValidation
  import opened Generation
  import opened GenerationTheorems

  /** Of the first n injections, k is the last with this id. */
  ghost predicate LastNamed(injs: seq<Injection>, n: nat, id: string, k: nat) {
    k < n <= |injs| && Names(injs[k], id) && forall m | k < m < n :: !Names(injs[m], id)
  }

  /** The networks an id stands for: the block of the last injection before with this id, or else
      the list of the configuration. */
  ghost predicate StandsFor(injs: seq<Injection>, trace: seq<Pick>, parents: map<string, seq<Prefix>>, id: string,
                            networks: seq<Prefix>) {
    if exists k: nat :: LastNamed(injs, |trace|, id, k) then
      exists k: nat :: LastNamed(injs, |trace|, id, k) && networks == [trace[k].block]
    else networks == if id in parents then parents[id] else []
  }

  /** None of the networks has room for a block of this length. */
  ghost predicate NoRoom(a: Allocator, networks: seq<Prefix>, len: nat) {
    forall y | 0 <= y < |networks| :: !CanHost(a, networks[y], len)
  }

  /** The ids an injection names, in its order, or else all configured ones, in any order. */
  ghost predicate Chosen(inj: Injection, parents: map<string, seq<Prefix>>, ids: seq<string>) {
    && (|inj.parents| > 0 ==> ids == inj.parents)
    && (|inj.parents| == 0 ==> NoDuplicates(ids) && forall id :: id in ids <==> id in parents)
  }

  /** The host is on the list, and nothing before it has room. */
  ghost predicate FirstAmong(a: Allocator, networks: seq<Prefix>, len: nat, host: Prefix) {
    exists j :: 0 <= j < |networks| && networks[j] == host && NoRoom(a, networks[..j], len)
  }

  ghost predicate NoneBefore(now: Allocator, injs: seq<Injection>, trace: seq<Pick>, parents: map<string, seq<Prefix>>,
                             ids: seq<string>, i: nat, len: nat)
    requires i <= |ids|
  {
    forall x, others | 0 <= x < i && StandsFor(injs, trace, parents, ids[x], others) :: NoRoom(now, others, len)
  }

  /** The host is the first network with room of one of the ids, and no network of an earlier id has
      room. */
  ghost predicate FirstWithRoom(now: Allocator, injs: seq<Injection>, trace: seq<Pick>,
                                parents: map<string, seq<Prefix>>, ids: seq<string>, len: nat, host: Prefix) {
    exists i, networks ::
      && 0 <= i < |ids| && StandsFor(injs, trace, parents, ids[i], networks) && FirstAmong(now, networks, len, host)
      && NoneBefore(now, injs, trace, parents, ids, i, len)
  }

  // ----- What the maps of the code stand for -----

  lemma {:induction false} LocalIsLast(injs: seq<Injection>, trace: seq<Pick>, id: string) returns (k: nat)
    requires |trace| <= |injs| && id in LocalsAfter(injs, trace)
    ensures LastNamed(injs, |trace|, id, k) && LocalsAfter(injs, trace)[id] == trace[k].block
  {
    var n := |trace| - 1;
    if Names(injs[n], id) {
      k := n;
    } else {
      k := LocalIsLast(injs, trace[..n], id);
    }
  }

  lemma {:induction false} NamedIsKnown(injs: seq<Injection>, trace: seq<Pick>, id: string, k: nat)
    requires |trace| <= |injs| && LastNamed(injs, |trace|, id, k)
    ensures id in LocalsAfter(injs, trace)
  {
    var n := |trace| - 1;
    if k < n {
      NamedIsKnown(injs, trace[..n], id, k);
    }
  }

  /** The networks by the code's map of local parents. */
  function ByMap(locals: map<string, Prefix>, parents: map<string, seq<Prefix>>, id: string): seq<Prefix> {
    if id in locals then [locals[id]] else if id in parents then parents[id] else []
  }

  lemma StandsForExactly(injs: seq<Injection>, trace: seq<Pick>, parents: map<string, seq<Prefix>>, id: string,
                         networks: seq<Prefix>)
    requires |trace| <= |injs|
    ensures StandsFor(injs, trace, parents, id, networks) <==> networks == ByMap(LocalsAfter(injs, trace), parents, id)
  {
    var locals := LocalsAfter(injs, trace);
    if id in locals {
      var k := LocalIsLast(injs, trace, id);
      assert forall m: nat | LastNamed(injs, |trace|, id, m) :: m == k;
    } else if k: nat :| LastNamed(injs, |trace|, id, k) {
      NamedIsKnown(injs, trace, id, k);
      assert false;
    }
  }

  // ----- The candidates the code builds -----

  lemma NoRoomTogether(a: Allocator, s: seq<Prefix>, t: seq<Prefix>, len: nat)
    ensures NoRoom(a, s + t, len) <==> NoRoom(a, s, len) && NoRoom(a, t, len)
  {
    assert forall i | 0 <= i < |s| :: (s + t)[i] == s[i];
    assert forall i | 0 <= i < |t| :: (s + t)[|s| + i] == t[i];
  }

  lemma FirstInParts(a: Allocator, s: seq<Prefix>, t: seq<Prefix>, len: nat, host: Prefix)
    requires CanHost(a, host, len)
    ensures FirstAmong(a, s + t, len, host) <==>
      FirstAmong(a, s, len, host) || (NoRoom(a, s, len) && FirstAmong(a, t, len, host))
  {
    if j :| 0 <= j < |s + t| && (s + t)[j] == host && NoRoom(a, (s + t)[..j], len) {
      if j < |s| {
        assert (s + t)[..j] == s[..j];
      } else {
        assert (s + t)[..j] == s + t[..j - |s|];
        NoRoomTogether(a, s, t[..j - |s|], len);
      }
    }
    if j :| 0 <= j < |s| && s[j] == host && NoRoom(a, s[..j], len) {
      assert (s + t)[..j] == s[..j];
    } else if j :| 0 <= j < |t| && t[j] == host && NoRoom(a, t[..j], len) {
      if NoRoom(a, s, len) {
        assert (s + t)[..|s| + j] == s + t[..j] && (s + t)[|s| + j] == host;
        NoRoomTogether(a, s, t[..j], len);
      }
    }
  }

  /** Only registered networks have room, so that leaving out the others changes nothing. */
  lemma {:induction false} RegisteredSuffice(networks: seq<Prefix>, a: Allocator, len: nat, host: Prefix)
    ensures NoRoom(a, RegisteredOnly(networks, a), len) <==> NoRoom(a, networks, len)
    ensures CanHost(a, host, len) ==>
      (FirstAmong(a, RegisteredOnly(networks, a), len, host) <==> FirstAmong(a, networks, len, host))
  {
    if networks != [] {
      var n := |networks| - 1;
      var init, last := networks[..n], if networks[n] in a then [networks[n]] else [];
      assert networks == init + [networks[n]] && RegisteredOnly(networks, a) == RegisteredOnly(init, a) + last;
      RegisteredSuffice(init, a, len, host);
      NoRoomTogether(a, RegisteredOnly(init, a), last, len);
      NoRoomTogether(a, init, [networks[n]], len);
      if CanHost(a, host, len) {
        FirstInParts(a, RegisteredOnly(init, a), last, len, host);
        FirstInParts(a, init, [networks[n]], len, host);
        assert FirstAmong(a, last, len, host) <==> FirstAmong(a, [networks[n]], len, host);
      }
    }
  }

  ghost predicate NoneOfIds(a: Allocator, locals: map<string, Prefix>, parents: map<string, seq<Prefix>>,
                            ids: seq<string>, len: nat) {
    forall x | 0 <= x < |ids| :: NoRoom(a, ByMap(locals, parents, ids[x]), len)
  }

  ghost predicate FirstOfIds(a: Allocator, locals: map<string, Prefix>, parents: map<string, seq<Prefix>>,
                             ids: seq<string>, len: nat, host: Prefix) {
    exists i :: 0 <= i < |ids| && FirstAmong(a, ByMap(locals, parents, ids[i]), len, host)
      && NoneOfIds(a, locals, parents, ids[..i], len)
  }

  lemma PrefixesSuffice(id: string, locals: map<string, Prefix>, parents: map<string, seq<Prefix>>, a: Allocator,
                        len: nat, host: Prefix)
    ensures NoRoom(a, PrefixesFor(id, locals, parents, a), len) <==> NoRoom(a, ByMap(locals, parents, id), len)
    ensures CanHost(a, host, len) ==>
      (FirstAmong(a, PrefixesFor(id, locals, parents, a), len, host) <==>
       FirstAmong(a, ByMap(locals, parents, id), len, host))
  {
    if id !in locals && id in parents {
      RegisteredSuffice(parents[id], a, len, host);
    }
  }

  lemma {:induction false} CandidatesSuffice(ids: seq<string>, locals: map<string, Prefix>,
                                             parents: map<string, seq<Prefix>>, a: Allocator, len: nat, host: Prefix)
    ensures NoRoom(a, CandidatesFor(ids, locals, parents, a), len) <==> NoneOfIds(a, locals, parents, ids, len)
    ensures CanHost(a, host, len) ==>
      (FirstAmong(a, CandidatesFor(ids, locals, parents, a), len, host) <==>
       FirstOfIds(a, locals, parents, ids, len, host))
  {
    if ids != [] {
      var n := |ids| - 1;
      var before, last := CandidatesFor(ids[..n], locals, parents, a), PrefixesFor(ids[n], locals, parents, a);
      CandidatesSuffice(ids[..n], locals, parents, a, len, host);
      PrefixesSuffice(ids[n], locals, parents, a, len, host);
      NoRoomTogether(a, before, last, len);
      NoneOfOneMore(a, locals, parents, ids, len);
      if CanHost(a, host, len) {
        FirstInParts(a, before, last, len, host);
        FirstOfOneMore(a, locals, parents, ids, len, host);
      }
    }
  }

  lemma NoneOfOneMore(a: Allocator, locals: map<string, Prefix>, parents: map<string, seq<Prefix>>, ids: seq<string>,
                      len: nat)
    requires ids != []
    ensures NoneOfIds(a, locals, parents, ids, len) <==>
      NoneOfIds(a, locals, parents, ids[..|ids| - 1], len) && NoRoom(a, ByMap(locals, parents, ids[|ids| - 1]), len)
  {
    assert ids == ids[..|ids| - 1] + [ids[|ids| - 1]];
  }

  lemma FirstOfOneMore(a: Allocator, locals: map<string, Prefix>, parents: map<string, seq<Prefix>>, ids: seq<string>,
                       len: nat, host: Prefix)
    requires ids != []
    ensures var n := |ids| - 1;
      FirstOfIds(a, locals, parents, ids, len, host) <==>
        || FirstOfIds(a, locals, parents, ids[..n], len, host)
        || (NoneOfIds(a, locals, parents, ids[..n], len) && FirstAmong(a, ByMap(locals, parents, ids[n]), len, host))
  {
    var n := |ids| - 1;
    assert forall i | 0 <= i < n :: ids[..n][i] == ids[i] && ids[..n][..i] == ids[..i];
  }

  // ----- What a pick, and a failure, mean -----

  lemma NoneFitsIsNoRoom(a: Allocator, s: seq<Prefix>, len: nat)
    ensures NoneFits(a, s, len) <==> NoRoom(a, s, len)
  {
  }

  lemma FirstFitIsFirst(a: Allocator, s: seq<Prefix>, len: nat, host: Prefix, block: Prefix)
    ensures FirstFit(a, s, len, host, block)
      <==> (block.len == len && Fits(a, host, block) && FirstAmong(a, s, len, host))
  {
    assert forall j | 0 <= j <= |s| :: NoneFits(a, s[..j], len) <==> NoRoom(a, s[..j], len);
  }

  lemma ByMapOfAll(now: Allocator, injs: seq<Injection>, trace: seq<Pick>, parents: map<string, seq<Prefix>>,
                   ids: seq<string>, len: nat, host: Prefix)
    requires |trace| <= |injs|
    ensures FirstWithRoom(now, injs, trace, parents, ids, len, host) <==>
      FirstOfIds(now, LocalsAfter(injs, trace), parents, ids, len, host)
  {
    var locals := LocalsAfter(injs, trace);
    forall i, networks | 0 <= i < |ids|
      ensures StandsFor(injs, trace, parents, ids[i], networks) <==> networks == ByMap(locals, parents, ids[i])
      ensures NoneBefore(now, injs, trace, parents, ids, i, len) <==> NoneOfIds(now, locals, parents, ids[..i], len)
    {
      StandsForExactly(injs, trace, parents, ids[i], networks);
      NoneBeforeByMap(now, injs, trace, parents, ids, i, len);
    }
  }

  lemma NoneBeforeByMap(now: Allocator, injs: seq<Injection>, trace: seq<Pick>, parents: map<string, seq<Prefix>>,
                        ids: seq<string>, i: nat, len: nat)
    requires |trace| <= |injs| && i <= |ids|
    ensures NoneBefore(now, injs, trace, parents, ids, i, len) <==>
      NoneOfIds(now, LocalsAfter(injs, trace), parents, ids[..i], len)
  {
    var locals := LocalsAfter(injs, trace);
    forall x | 0 <= x < i
      ensures ids[..i][x] == ids[x] && StandsFor(injs, trace, parents, ids[x], ByMap(locals, parents, ids[x]))
    {
      StandsForExactly(injs, trace, parents, ids[x], ByMap(locals, parents, ids[x]));
    }
    forall x, others | 0 <= x < i && StandsFor(injs, trace, parents, ids[x], others)
      ensures others == ByMap(locals, parents, ids[..i][x])
    {
      StandsForExactly(injs, trace, parents, ids[x], others);
    }
  }

  /** A pick is valid exactly if its ids are those of the injection, its block has the size asked for
      and fits into the host, and the host is the first network with room. */
  lemma PickIsFirstWithRoom(a: Allocator, injs: seq<Injection>, parents: map<string, seq<Prefix>>, trace: seq<Pick>,
                            pick: Pick)
    requires |trace| < |injs|
    ensures var now, inj := StateAfter(a, trace), injs[|trace|];
      ValidPick(a, injs, parents, trace, pick) <==>
        && Chosen(inj, parents, pick.ids) && pick.block.len == inj.subnetSize && Fits(now, pick.host, pick.block)
        && FirstWithRoom(now, injs, trace, parents, pick.ids, inj.subnetSize, pick.host)
  {
    var now, len, locals := StateAfter(a, trace), injs[|trace|].subnetSize, LocalsAfter(injs, trace);
    FirstFitIsFirst(now, CandidatesFor(pick.ids, locals, parents, now), len, pick.host, pick.block);
    CandidatesSuffice(pick.ids, locals, parents, now, len, pick.host);
    ByMapOfAll(now, injs, trace, parents, pick.ids, len, pick.host);
  }

  ghost predicate PickedFirst(a: Allocator, injs: seq<Injection>, parents: map<string, seq<Prefix>>, trace: seq<Pick>,
                              k: nat)
    requires k < |trace| <= |injs|
  {
    var now, inj, pick := StateAfter(a, trace[..k]), injs[k], trace[k];
    && Chosen(inj, parents, pick.ids) && pick.block.len == inj.subnetSize && Fits(now, pick.host, pick.block)
    && FirstWithRoom(now, injs, trace[..k], parents, pick.ids, inj.subnetSize, pick.host)
  }

  /** So it is with every pick of a generation. */
  lemma {:induction false} EveryPickIsFirst(a: Allocator, injs: seq<Injection>, parents: map<string, seq<Prefix>>,
                                            trace: seq<Pick>, k: nat)
    requires k < |trace| <= |injs| && ValidTrace(a, injs, parents, trace)
    ensures PickedFirst(a, injs, parents, trace, k)
    decreases |trace|
  {
    var n := |trace| - 1;
    if k == n {
      PickIsFirstWithRoom(a, injs, parents, trace[..n], trace[n]);
    } else {
      EveryPickIsFirst(a, injs, parents, trace[..n], k);
      assert trace[..n][..k] == trace[..k] && trace[..n][k] == trace[k];
    }
  }

  /** No configured or local network the injection may use has room. */
  ghost predicate NothingHasRoom(now: Allocator, injs: seq<Injection>, trace: seq<Pick>,
                                 parents: map<string, seq<Prefix>>)
    requires |trace| < |injs|
  {
    var inj := injs[|trace|];
    forall id, networks | (if |inj.parents| > 0 then id in inj.parents else id in parents)
      && StandsFor(injs, trace, parents, id, networks) :: NoRoom(now, networks, inj.subnetSize)
  }

  /** Generation gets stuck exactly if no network of any id that the injection names has room; if it
      names none, no network of any configured id. */
  lemma StuckIffNothingHasRoom(a: Allocator, injs: seq<Injection>, parents: map<string, seq<Prefix>>, trace: seq<Pick>)
    requires |trace| < |injs|
    ensures Stuck(a, injs, parents, trace) <==> NothingHasRoom(StateAfter(a, trace), injs, trace, parents)
  {
    var now, inj, locals := StateAfter(a, trace), injs[|trace|], LocalsAfter(injs, trace);
    var order := SomeOrder(parents.Keys);
    var some := if |inj.parents| > 0 then inj.parents else order;
    assert IdsFor(inj, parents, some);
    forall ids | IdsFor(inj, parents, ids)
      ensures NoneFits(now, CandidatesFor(ids, locals, parents, now), inj.subnetSize) <==>
        NothingHasRoom(now, injs, trace, parents)
    {
      NoneFitsIsNoRoom(now, CandidatesFor(ids, locals, parents, now), inj.subnetSize);
      CandidatesSuffice(ids, locals, parents, now, inj.subnetSize, Cidr(0, 32));
      NothingForIds(now, injs, trace, parents, ids);
    }
  }

  lemma NothingForIds(now: Allocator, injs: seq<Injection>, trace: seq<Pick>, parents: map<string, seq<Prefix>>,
                      ids: seq<string>)
    requires |trace| < |injs| && IdsFor(injs[|trace|], parents, ids)
    ensures NothingHasRoom(now, injs, trace, parents) <==>
      NoneOfIds(now, LocalsAfter(injs, trace), parents, ids, injs[|trace|].subnetSize)
  {
    var inj, locals := injs[|trace|], LocalsAfter(injs, trace);
    forall id, networks
      ensures StandsFor(injs, trace, parents, id, networks) <==> networks == ByMap(locals, parents, id)
    {
      StandsForExactly(injs, trace, parents, id, networks);
    }
    assert forall id :: id in ids <==> if |inj.parents| > 0 then id in inj.parents else id in parents;
    if NothingHasRoom(now, injs, trace, parents) {
      forall x | 0 <= x < |ids|
        ensures NoRoom(now, ByMap(locals, parents, ids[x]), inj.subnetSize)
      {
        assert StandsFor(injs, trace, parents, ids[x], ByMap(locals, parents, ids[x]));
      }
    }
  }
}
