/** Rebuilding the allocator from the ClusterConfigs.  Every block is put back under the
    first overlapping candidate among the blocks of its own list, latest first, and then
    the configured parents.  The result turns out to depend on the set of blocks only. */
module Rebuild {
  import opened Prefixes
  import opened Forest
  import opened GoIpam
  import opened Config
  import opened Patches

  // ----- Finding the parent -----

  function Reverse<T>(s: seq<T>): (r: seq<T>)
    ensures |r| == |s| && forall i | 0 <= i < |s| :: r[i] == s[|s| - 1 - i]
  {
    if s == [] then [] else Reverse(s[1..]) + [s[0]]
  }

  method ReverseList<T(0)>(src: seq<T>) returns (r: seq<T>)
    ensures r == Reverse(src)
  {
    var l := |src|;
    var res := new T[l];
    for i := 0 to l
      invariant forall k | 0 <= k < i :: res[l - 1 - k] == src[k]
    {
      res[l - 1 - i] := src[i];
    }
    r := res[..];
    assert r == Reverse(src) by {
      forall k | 0 <= k < l
        ensures r[k] == Reverse(src)[k]
      {
        assert res[l - 1 - (l - 1 - k)] == src[l - 1 - k];
      }
    }
  }

  function FirstOverlap(candidates: seq<Prefix>, c: Prefix): Option<Prefix> {
    if candidates == [] then None
    else if Overlaps(candidates[0], c) then Some(candidates[0])
    else FirstOverlap(candidates[1..], c)
  }

  function IdentifyParent(c: Prefix, lists: seq<seq<Prefix>>): Option<Prefix> {
    if lists == [] then None
    else
      var r := FirstOverlap(lists[0], c);
      if r.Some? then r else IdentifyParent(c, lists[1..])
  }

  method IdentifyParentPrefix(c: Prefix, lists: seq<seq<Prefix>>) returns (r: Option<Prefix>)
    ensures r == IdentifyParent(c, lists)
  {
    for i := 0 to |lists|
      invariant IdentifyParent(c, lists) == IdentifyParent(c, lists[i..])
    {
      for j := 0 to |lists[i]|
        invariant FirstOverlap(lists[i], c) == FirstOverlap(lists[i][j..], c)
      {
        if Overlaps(lists[i][j], c) {
          return Some(lists[i][j]);
        }
      }
    }
    return None;
  }

  lemma {:induction false} FirstOverlapIndex(s: seq<Prefix>, c: Prefix) returns (k: nat)
    ensures k <= |s| && forall i | 0 <= i < k :: !Overlaps(s[i], c)
    ensures FirstOverlap(s, c) == if k < |s| then Some(s[k]) else None
    ensures k < |s| ==> Overlaps(s[k], c)
  {
    if s == [] || Overlaps(s[0], c) {
      k := 0;
    } else {
      k := FirstOverlapIndex(s[1..], c);
      k := k + 1;
      assert forall i | 0 < i < k :: s[i] == s[1..][i - 1];
    }
  }

  /** The block at this place overlaps c, and none before it does, in this list or an earlier one. */
  ghost predicate FirstAt(c: Prefix, lists: seq<seq<Prefix>>, i: int, j: int) {
    && 0 <= i < |lists| && 0 <= j < |lists[i]| && Overlaps(lists[i][j], c)
    && (forall m | 0 <= m < j :: !Overlaps(lists[i][m], c))
    && (forall l, m | 0 <= l < i && 0 <= m < |lists[l]| :: !Overlaps(lists[l][m], c))
  }

  /** The search finds the first overlapping block, if there is one. */
  lemma {:induction false} IdentifiedIsFirst(c: Prefix, lists: seq<seq<Prefix>>)
    ensures match IdentifyParent(c, lists)
      case None => forall l, m | 0 <= l < |lists| && 0 <= m < |lists[l]| :: !Overlaps(lists[l][m], c)
      case Some(p) => exists i, j :: FirstAt(c, lists, i, j) && lists[i][j] == p
  {
    if lists != [] {
      var k := FirstOverlapIndex(lists[0], c);
      if k < |lists[0]| {
        assert FirstAt(c, lists, 0, k);
      } else {
        IdentifiedIsFirst(c, lists[1..]);
        assert forall l | 0 < l < |lists| :: lists[l] == lists[1..][l - 1];
        if IdentifyParent(c, lists).Some? {
          var i, j :| FirstAt(c, lists[1..], i, j) && lists[1..][i][j] == IdentifyParent(c, lists).value;
          assert FirstAt(c, lists, i + 1, j);
        }
      }
    }
  }

  ghost predicate SortedByLength(s: seq<Prefix>) {
    forall i, j | 0 <= i < j < |s| :: s[i].len <= s[j].len
  }

  /** Searching a size-sorted list backwards finds the last overlapping block. */
  lemma LastOverlap(tmp: seq<Prefix>, c: Prefix)
    ensures match FirstOverlap(Reverse(tmp), c)
      case None => forall t | t in tmp :: !Overlaps(t, c)
      case Some(t) =>
        t in tmp && Overlaps(t, c) && (SortedByLength(tmp) ==> forall d | d in tmp && Overlaps(d, c) :: d.len <= t.len)
  {
    var r := Reverse(tmp);
    var k := FirstOverlapIndex(r, c);
    forall t | t in tmp && Overlaps(t, c)
      ensures k < |r| && (SortedByLength(tmp) ==> t.len <= r[k].len)
    {
      var i :| 0 <= i < |tmp| && tmp[i] == t;
      assert r[|tmp| - 1 - i] == t;
      assert k <= |tmp| - 1 - i;
      assert r[k] == tmp[|tmp| - 1 - k];
    }
  }

  ghost function Candidates(tmp: seq<Prefix>, parents: seq<Prefix>): set<Prefix> {
    (set t | t in tmp) + (set p | p in parents)
  }

  /** What the search promises: c itself if it is a candidate already, otherwise its
      tightest encloser among the candidates, if any. */
  ghost predicate SelfOrTightest(all: set<Prefix>, c: Prefix, r: Option<Prefix>) {
    if c in all then r == Some(c) else IsTightest(all, c, r)
  }

  /** Among size-sorted candidates no smaller than c, and parents that are pairwise equal or
      disjoint and never smaller than a block they overlap, the search returns c itself if it
      is a candidate, and otherwise its tightest encloser. */
  lemma SearchFindsTightest(c: Prefix, tmp: seq<Prefix>, parents: seq<Prefix>)
    requires SortedByLength(tmp) && forall t | t in tmp :: t.len <= c.len
    requires EqualOrDisjoint(parents)
    requires forall p | p in parents && Overlaps(p, c) :: Covers(p, c)
    requires forall p, t | p in parents && t in tmp && Overlaps(p, t) :: Covers(p, t)
    ensures SelfOrTightest(Candidates(tmp, parents), c, IdentifyParent(c, [Reverse(tmp), parents]))
  {
    var r := IdentifyParent(c, [Reverse(tmp), parents]);
    IdentifyInTwo(c, Reverse(tmp), parents);
    SearchResult(c, tmp, parents, r);
    var all := Candidates(tmp, parents);
    forall d | d in all && Covers(d, c)
      ensures r.Some? && Covers(d, r.value) && (d == c ==> r.value == c)
    {
      SearchBeats(c, tmp, parents, r, d);
    }
    BestIsTightest(all, c, r);
  }

  lemma BestIsTightest(all: set<Prefix>, c: Prefix, r: Option<Prefix>)
    requires r.Some? ==> r.value in all && Covers(r.value, c)
    requires forall d | d in all && Covers(d, c) :: r.Some? && Covers(d, r.value) && (d == c ==> r.value == c)
    ensures SelfOrTightest(all, c, r)
  {
    if r.Some? {
      NestedOrDisjoint(r.value, c);
    }
  }

  lemma IdentifyInTwo(c: Prefix, first: seq<Prefix>, second: seq<Prefix>)
    ensures IdentifyParent(c, [first, second])
         == if FirstOverlap(first, c).Some? then FirstOverlap(first, c) else FirstOverlap(second, c)
  {
    var none: seq<seq<Prefix>> := [];
    assert [second][1..] == none && IdentifyParent(c, none).None?;
    assert [second][0] == second;
    assert IdentifyParent(c, [second]) == FirstOverlap(second, c);
    assert [first, second][1..] == [second] && [first, second][0] == first;
  }

  lemma SearchResult(c: Prefix, tmp: seq<Prefix>, parents: seq<Prefix>, r: Option<Prefix>)
    requires forall t | t in tmp :: t.len <= c.len
    requires forall p | p in parents && Overlaps(p, c) :: Covers(p, c)
    requires r ==
      if FirstOverlap(Reverse(tmp), c).Some? then FirstOverlap(Reverse(tmp), c) else FirstOverlap(parents, c)
    ensures r.Some? ==> (r.value in tmp || r.value in parents) && Covers(r.value, c)
    ensures r.Some? && r.value !in tmp ==> forall t | t in tmp :: !Overlaps(t, c)
    ensures r.None? ==> forall t | t in tmp || t in parents :: !Overlaps(t, c)
  {
    LastOverlap(tmp, c);
    var k := FirstOverlapIndex(parents, c);
    if r.Some? {
      NestedOrDisjoint(r.value, c);
    }
  }

  lemma SearchBeats(c: Prefix, tmp: seq<Prefix>, parents: seq<Prefix>, r: Option<Prefix>, d: Prefix)
    requires SortedByLength(tmp) && forall t | t in tmp :: t.len <= c.len
    requires EqualOrDisjoint(parents)
    requires forall p | p in parents && Overlaps(p, c) :: Covers(p, c)
    requires forall p, t | p in parents && t in tmp && Overlaps(p, t) :: Covers(p, t)
    requires r ==
      if FirstOverlap(Reverse(tmp), c).Some? then FirstOverlap(Reverse(tmp), c) else FirstOverlap(parents, c)
    requires (d in tmp || d in parents) && Covers(d, c)
    ensures r.Some? && Covers(d, r.value) && (d == c ==> r.value == c)
  {
    LastOverlap(tmp, c);
    var k := FirstOverlapIndex(parents, c);
    NestedOrDisjoint(d, c);
    if r.Some? {
      var t := r.value;
      NestedOrDisjoint(t, c);
      NestedOrDisjoint(c, t);
      NestedOrDisjoint(t, d);
      NestedOrDisjoint(d, t);
    }
    if d in parents {
      var i :| 0 <= i < |parents| && parents[i] == d;
    }
  }

  // ----- Registering -----

  /** Any two entries are the same block or do not overlap. */
  ghost predicate EqualOrDisjoint(s: seq<Prefix>) {
    forall x, y | x in s && y in s && x != y :: !Overlaps(x, y)
  }

  function FetchOrNew(a: Allocator, c: Prefix): Option<Allocator> {
    if c in a then Some(a) else NewRoot(a, c)
  }

  function RegisterFrom(a: Allocator, parents: seq<Prefix>): Option<Allocator> {
    if parents == [] then Some(a)
    else
      match RegisterFrom(a, parents[..|parents| - 1])
      case None => None
      case Some(b) => FetchOrNew(b, parents[|parents| - 1])
  }

  function RegisterParents(parents: seq<Prefix>): Option<Allocator> {
    RegisterFrom(map[], parents)
  }

  /** The allocator and the children registered so far for the current list. */
  datatype Progress = Progress(ipam: Allocator, tmpParents: seq<Prefix>)

  function RegisterOne(st: Progress, parents: seq<Prefix>, patch: Patch): Option<Progress> {
    if !patch.op.Add? then Some(st)
    else if !AddsBlock(patch) then None
    else
      var c := BlockOf(patch);
      match IdentifyParent(c, [Reverse(st.tmpParents), parents])
      case None =>
        (match FetchOrNew(st.ipam, c)
         case None => None
         case Some(a) => Some(Progress(a, st.tmpParents)))
      case Some(p) =>
        if p == c then Some(st)
        else
          match AcquireSpecific(st.ipam, p, c)
          case None => None
          case Some(a) => Some(Progress(a, st.tmpParents + [c]))
  }

  function RegisterList(a: Allocator, parents: seq<Prefix>, patches: seq<Patch>): Option<Progress> {
    if patches == [] then Some(Progress(a, []))
    else
      match RegisterList(a, parents, patches[..|patches| - 1])
      case None => None
      case Some(st) => RegisterOne(st, parents, patches[|patches| - 1])
  }

  function RegisterAll(a: Allocator, parents: seq<Prefix>, lists: seq<seq<Patch>>): Option<Allocator> {
    if lists == [] then Some(a)
    else
      match RegisterAll(a, parents, lists[..|lists| - 1])
      case None => None
      case Some(b) =>
        match RegisterList(b, parents, lists[|lists| - 1])
        case None => None
        case Some(st) => Some(st.ipam)
  }

  /** The whole rebuild, for parents and patch lists met in the given orders. */
  function RebuildFrom(parents: seq<Prefix>, lists: seq<seq<Patch>>): Option<Allocator> {
    match RegisterParents(parents)
    case None => None
    case Some(a) => RegisterAll(a, parents, lists)
  }

  // ----- The code -----

  method FetchOrNewPrefix(ipam: Library, c: Prefix) returns (ok: bool)
    modifies ipam
    ensures ok == FetchOrNew(old(ipam.prefixes), c).Some?
    ensures ipam.prefixes == if ok then FetchOrNew(old(ipam.prefixes), c).value else old(ipam.prefixes)
  {
    ok := ipam.PrefixFrom(c);
    if !ok {
      ok := ipam.NewPrefix(c);
    }
  }

  method RegisterPatch(ipam: Library, tmpParents: seq<Prefix>, parents: seq<Prefix>, patch: Patch)
      returns (ok: bool, tmp: seq<Prefix>)
    modifies ipam
    ensures ok == RegisterOne(Progress(old(ipam.prefixes), tmpParents), parents, patch).Some?
    ensures ok ==>
      RegisterOne(Progress(old(ipam.prefixes), tmpParents), parents, patch).value == Progress(ipam.prefixes, tmp)
  {
    ok, tmp := true, tmpParents;
    if !patch.op.Add? {
      return;
    }
    if !AddsBlock(patch) {
      return false, tmp;
    }
    var c := BlockOf(patch);
    var reversed := ReverseList(tmpParents);
    var parent := IdentifyParentPrefix(c, [reversed, parents]);
    if parent.None? {
      ok := FetchOrNewPrefix(ipam, c);
    } else if parent.value != c {
      ok := ipam.AcquireSpecificChildPrefix(parent.value, c);
      if ok {
        tmp := tmpParents + [c];
      }
    }
  }

  method RegisterPatches(ipam: Library, parents: seq<Prefix>, patches: seq<Patch>) returns (ok: bool)
    modifies ipam
    ensures ok == RegisterList(old(ipam.prefixes), parents, patches).Some?
    ensures ok ==> RegisterList(old(ipam.prefixes), parents, patches).value.ipam == ipam.prefixes
  {
    ghost var a := ipam.prefixes;
    var tmpParents: seq<Prefix> := [];
    for i := 0 to |patches|
      invariant RegisterList(a, parents, patches[..i]) == Some(Progress(ipam.prefixes, tmpParents))
    {
      assert patches[..i + 1][..i] == patches[..i];
      ok, tmpParents := RegisterPatch(ipam, tmpParents, parents, patches[i]);
      if !ok {
        NoProgress(a, parents, patches, i + 1);
        return;
      }
    }
    assert patches[..|patches|] == patches;
    ok := true;
  }

  lemma {:induction false} NoProgress(a: Allocator, parents: seq<Prefix>, patches: seq<Patch>, i: nat)
    requires i <= |patches| && RegisterList(a, parents, patches[..i]).None?
    ensures RegisterList(a, parents, patches).None?
    decreases |patches| - i
  {
    if i < |patches| {
      assert patches[..i + 1][..i] == patches[..i];
      NoProgress(a, parents, patches, i + 1);
    } else {
      assert patches[..i] == patches;
    }
  }

  /** Registers the configured parents, whose identifiers may be met in any order. */
  method RegisterConfigParents(ipam: Library, parentCIDRs: map<string, seq<Prefix>>)
      returns (ok: bool, parents: seq<Prefix>, ghost order: seq<string>)
    requires ipam.prefixes == map[]
    modifies ipam
    ensures Enumerates(order, parentCIDRs.Keys)
    ensures ok == RegisterParents(Flatten(order, parentCIDRs)).Some?
    ensures ok ==> parents == Flatten(order, parentCIDRs) && RegisterParents(parents) == Some(ipam.prefixes)
  {
    ok, parents, order := true, [], [];
    var todo := parentCIDRs.Keys;
    while todo != {}
      invariant todo <= parentCIDRs.Keys
      invariant Enumerates(order, parentCIDRs.Keys - todo)
      invariant ok == RegisterParents(Flatten(order, parentCIDRs)).Some?
      invariant ok ==> parents == Flatten(order, parentCIDRs) && RegisterParents(parents) == Some(ipam.prefixes)
      decreases |todo|
    {
      var id :| id in todo;
      todo := todo - {id};
      ghost var before := Flatten(order, parentCIDRs);
      RegisterAppend(map[], before, parentCIDRs[id]);
      assert Flatten(order + [id], parentCIDRs) == before + parentCIDRs[id] by {
        assert (order + [id])[..|order|] == order;
      }
      order := order + [id];
      if ok {
        ok := RegisterParentList(ipam, parentCIDRs[id]);
        parents := parents + parentCIDRs[id];
      }
    }
  }

  lemma {:induction false} RegisterAppend(a: Allocator, s: seq<Prefix>, t: seq<Prefix>)
    ensures RegisterFrom(a, s + t) == match RegisterFrom(a, s) case None => None case Some(b) => RegisterFrom(b, t)
  {
    if t == [] {
      assert s + t == s;
    } else {
      RegisterAppend(a, s, t[..|t| - 1]);
      assert (s + t)[..|s + t| - 1] == s + t[..|t| - 1];
    }
  }

  method RegisterParentList(ipam: Library, cidrs: seq<Prefix>) returns (ok: bool)
    modifies ipam
    ensures ok == RegisterFrom(old(ipam.prefixes), cidrs).Some?
    ensures ok ==> RegisterFrom(old(ipam.prefixes), cidrs) == Some(ipam.prefixes)
  {
    ghost var a := ipam.prefixes;
    for i := 0 to |cidrs|
      invariant RegisterFrom(a, cidrs[..i]) == Some(ipam.prefixes)
    {
      assert cidrs[..i + 1][..i] == cidrs[..i];
      ok := FetchOrNewPrefix(ipam, cidrs[i]);
      if !ok {
        RegisterAppend(a, cidrs[..i + 1], cidrs[i + 1..]);
        assert cidrs[..i + 1] + cidrs[i + 1..] == cidrs;
        return;
      }
    }
    assert cidrs[..|cidrs|] == cidrs;
    ok := true;
  }

  method IpamFromClusterConfigs(parentCIDRs: map<string, seq<Prefix>>, lists: seq<seq<Patch>>)
      returns (r: Option<Library>, ghost order: seq<string>)
    ensures Enumerates(order, parentCIDRs.Keys)
    ensures r.Some? == RebuildFrom(Flatten(order, parentCIDRs), lists).Some?
    ensures r.Some? ==> fresh(r.value) && RebuildFrom(Flatten(order, parentCIDRs), lists) == Some(r.value.prefixes)
  {
    var ipam := new Library();
    var ok, parents;
    ok, parents, order := RegisterConfigParents(ipam, parentCIDRs);
    if !ok {
      return None, order;
    }
    ghost var a := ipam.prefixes;
    for i := 0 to |lists|
      invariant RegisterAll(a, parents, lists[..i]) == Some(ipam.prefixes)
    {
      assert lists[..i + 1][..i] == lists[..i];
      ok := RegisterPatches(ipam, parents, lists[i]);
      if !ok {
        NoneLater(a, parents, lists, i + 1);
        return None, order;
      }
    }
    assert lists[..|lists|] == lists;
    r := Some(ipam);
  }

  lemma {:induction false} NoneLater(a: Allocator, parents: seq<Prefix>, lists: seq<seq<Patch>>, i: nat)
    requires i <= |lists| && RegisterAll(a, parents, lists[..i]).None?
    ensures RegisterAll(a, parents, lists).None?
    decreases |lists| - i
  {
    if i < |lists| {
      assert lists[..i + 1][..i] == lists[..i];
      NoneLater(a, parents, lists, i + 1);
    } else {
      assert lists[..i] == lists;
    }
  }
}
