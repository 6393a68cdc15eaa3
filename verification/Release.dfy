/** Releasing the blocks of a ClusterConfig: on a copy of the allocator, which replaces the
    shared one only if everything went well. */
module Release {
  import opened Prefixes
  import opened Forest
  import opened GoIpam
  import opened Config
  import opened Patches

  /** One patch handled without error.  A string that is no CIDR is registered nowhere. */
  ghost predicate PatchReleased(a: Allocator, patch: Patch, b: Allocator) {
    match patch.value
    case Absent => b == a
    case NotString => false
    case Str(Junk(_, _)) => b == a
    case Str(Block(c)) => if c in a then exists out: Outcome :: ReleaseSpec(a, c, out, b) && !out.Refused? else b == a
  }

  ghost predicate ListReleased(a: Allocator, patches: seq<Patch>, b: Allocator) {
    if patches == [] then b == a
    else
      var init, last := patches[..|patches| - 1], patches[|patches| - 1];
      exists mid :: ListReleased(a, init, mid) && PatchReleased(mid, last, b)
  }

  /** The patch can make the release fail. */
  ghost predicate Unreleasable(a: Allocator, patch: Patch) {
    match patch.value
    case Absent => false
    case NotString => true
    case Str(Junk(_, _)) => false
    case Str(Block(c)) => c in a && !Releasable(a, c)
  }

  ghost predicate MayFail(a: Allocator, patches: seq<Patch>) {
    exists i, mid :: 0 <= i < |patches| && ListReleased(a, patches[..i], mid) && Unreleasable(mid, patches[i])
  }

  /** All blocks on the list, whatever the operation of their patch. */
  ghost function Listed(patches: seq<Patch>): set<Prefix> {
    if patches == [] then {}
    else
      var last := patches[|patches| - 1].value;
      Listed(patches[..|patches| - 1]) + (if last.Str? && last.text.Block? then {last.text.cidr} else {})
  }

  // ----- The code -----

  method ReleasePatch(newIpam: Library, patch: Patch) returns (ok: bool)
    modifies newIpam
    ensures ok ==> PatchReleased(old(newIpam.prefixes), patch, newIpam.prefixes)
    ensures !ok ==> Unreleasable(old(newIpam.prefixes), patch)
  {
    ok := true;
    match patch.value {
      case Absent =>
      case NotString => ok := false;
      case Str(Junk(_, _)) =>
      case Str(Block(c)) =>
        var found := newIpam.PrefixFrom(c);
        if found {
          var out := newIpam.ReleaseChildPrefix(c);
          ok := !out.Refused?;
        }
    }
  }

  /** `patched` says whether the API server accepts the removal of the finalizer. */
  method ReleaseCIDRsForClusterConfig(ipam: Ipamer, cc: ClusterConfig, patched: bool) returns (ok: bool,
                                      cc': ClusterConfig)
    modifies ipam
    ensures ok ==> ListReleased(old(ipam.internal.prefixes), cc.patches, ipam.internal.prefixes) && fresh(ipam.internal)
    ensures ok ==> cc' == cc.(finalizer := false) && (cc.finalizer ==> patched)
    ensures !ok ==>
      ipam.internal == old(ipam.internal) && ipam.internal.prefixes == old(ipam.internal.prefixes) && cc' == cc
    ensures !ok ==> MayFail(ipam.internal.prefixes, cc.patches) || (cc.finalizer && !patched)
  {
    cc' := cc;
    ghost var a := ipam.internal.prefixes;
    var newIpam := new Library.Load(ipam.internal.prefixes);
    for i := 0 to |cc.patches|
      invariant fresh(newIpam) && newIpam != ipam.internal
      invariant ipam.internal == old(ipam.internal) && ipam.internal.prefixes == a
      invariant ListReleased(a, cc.patches[..i], newIpam.prefixes)
    {
      ghost var mid := newIpam.prefixes;
      ok := ReleasePatch(newIpam, cc.patches[i]);
      if !ok {
        assert ListReleased(a, cc.patches[..i], mid) && Unreleasable(mid, cc.patches[i]);
        return;
      }
      assert cc.patches[..i + 1][..i] == cc.patches[..i];
    }
    assert cc.patches[..|cc.patches|] == cc.patches;
    if cc.finalizer && !patched {
      return false, cc;
    }
    cc' := cc.(finalizer := false);
    ipam.internal := newIpam;
    ok := true;
  }

  // ----- What a release achieves -----

  /** A release removes listed blocks only, and changes no parent link. */
  lemma {:induction false} ReleaseFrame(a: Allocator, patches: seq<Patch>, b: Allocator)
    requires ListReleased(a, patches, b)
    ensures b.Keys <= a.Keys && a.Keys - Listed(patches) <= b.Keys
    ensures forall x | x in b :: b[x] == a[x]
  {
    if patches != [] {
      var init, last := patches[..|patches| - 1], patches[|patches| - 1];
      var mid :| ListReleased(a, init, mid) && PatchReleased(mid, last, b);
      ReleaseFrame(a, init, mid);
      PatchFrame(mid, last, b);
    }
  }

  lemma PatchFrame(a: Allocator, patch: Patch, b: Allocator)
    requires PatchReleased(a, patch, b)
    ensures b.Keys <= a.Keys && forall x | x in b :: b[x] == a[x]
    ensures forall x | x in a && x !in b :: patch.value == Str(Block(x))
  {
  }

  /** The listed blocks that are registered have registered parents and no registered
      children; in particular, the list is not nested. */
  ghost predicate ListedLeaves(a: Allocator, listed: set<Prefix>) {
    forall c | c in listed && c in a :: Releasable(a, c)
  }

  ghost predicate ReadableValues(patches: seq<Patch>) {
    forall i | 0 <= i < |patches| :: !patches[i].value.NotString?
  }

  lemma {:induction false} ListedGrows(patches: seq<Patch>, i: nat)
    requires i <= |patches|
    ensures Listed(patches[..i]) <= Listed(patches)
    decreases |patches| - i
  {
    if i < |patches| {
      assert patches[..i + 1][..i] == patches[..i];
      ListedGrows(patches, i + 1);
    } else {
      assert patches[..i] == patches;
    }
  }

  /** The exact result for a list that is not nested: the listed blocks are gone, repetitions
      and blocks not registered included, and everything else is as before. */
  lemma {:induction false} ReleaseExact(a: Allocator, patches: seq<Patch>, b: Allocator)
    requires ListedLeaves(a, Listed(patches)) && ListReleased(a, patches, b)
    ensures b == a - Listed(patches)
  {
    if patches == [] {
      assert a - {} == a;
    } else {
      var init, last := patches[..|patches| - 1], patches[|patches| - 1];
      var mid :| ListReleased(a, init, mid) && PatchReleased(mid, last, b);
      assert Listed(init) <= Listed(patches);
      ReleaseExact(a, init, mid);
      if last.value.Str? && last.value.text.Block? {
        OneMoreLeaf(a, Listed(patches), Listed(init), mid, last, b);
      }
    }
  }

  lemma OneMoreLeaf(a: Allocator, listed: set<Prefix>, gone: set<Prefix>, mid: Allocator, patch: Patch, b: Allocator)
    requires patch.value.Str? && patch.value.text.Block? && PatchReleased(mid, patch, b)
    requires ListedLeaves(a, listed) && gone <= listed && patch.value.text.cidr in listed && mid == a - gone
    ensures b == a - (gone + {patch.value.text.cidr})
  {
    var c := patch.value.text.cidr;
    if c in mid {
      assert Releasable(a, c);
      assert a[c].value !in gone;
      assert Releasable(mid, c);
    }
    assert a - gone - {c} == a - (gone + {c});
  }

  lemma LeavesCannotFail(a: Allocator, patches: seq<Patch>)
    requires ListedLeaves(a, Listed(patches)) && ReadableValues(patches)
    ensures !MayFail(a, patches)
  {
    forall i, mid | 0 <= i < |patches| && ListReleased(a, patches[..i], mid)
      ensures !Unreleasable(mid, patches[i])
    {
      ListedGrows(patches, i);
      ReleaseExact(a, patches[..i], mid);
      ListedGrows(patches, i + 1);
      assert patches[..i + 1][..i] == patches[..i];
    }
  }

  /** A block with a registered child, on a list that has larger blocks first: the library may
      keep it, and release everything else. */
  lemma {:induction false} KeepsOne(a: Allocator, patches: seq<Patch>, c: Prefix)
    requires ChildrenApart(a) && AllBlockPatches(patches) && SizeSorted(patches) && c in a && !Releasable(a, c)
    ensures ListReleased(a, patches, a - (Listed(patches) - {c}))
  {
    if patches == [] {
      assert a - ({} - {c}) == a;
    } else {
      var init, last := patches[..|patches| - 1], patches[|patches| - 1];
      KeepsOne(a, init, c);
      ListedSizes(patches);
      var mid, b := a - (Listed(init) - {c}), a - (Listed(patches) - {c});
      var x := last.value.text.cidr;
      if x == c {
        StaysUnreleasable(a, c, Listed(init));
        assert mid == b;
        assert ReleaseSpec(mid, c, NotFound, mid);
      } else if x in mid {
        assert b == mid - {x};
        assert ReleaseSpec(mid, x, Released, b);
      } else {
        assert b == mid;
      }
    }
  }

  /** Taking away other blocks that are no smaller does not turn c into a leaf. */
  lemma StaysUnreleasable(a: Allocator, c: Prefix, gone: set<Prefix>)
    requires ChildrenApart(a) && c in a && !Releasable(a, c) && forall x | x in gone :: x.len <= c.len
    ensures c in a - (gone - {c}) && !Releasable(a - (gone - {c}), c)
  {
    if d :| d in a && a[d] == Some(c) {
      assert StrictlyCovers(c, d);
      assert d in a - (gone - {c});
    }
  }

  lemma {:induction false} ListedSizes(patches: seq<Patch>)
    requires AllBlockPatches(patches) && SizeSorted(patches) && patches != []
    ensures forall x | x in Listed(patches) :: x.len <= BlockOf(patches[|patches| - 1]).len
  {
    if |patches| > 1 {
      ListedSizes(patches[..|patches| - 1]);
    } else {
      assert patches[..0] == [];
    }
  }

  /** Exactly the lists whose registered blocks are all leaves are sure to be released
      completely. */
  lemma ReleasedIffLeaves(a: Allocator, patches: seq<Patch>)
    requires ChildrenApart(a) && AllBlockPatches(patches) && SizeSorted(patches)
    ensures (forall b | ListReleased(a, patches, b) :: b == a - Listed(patches)) <==> ListedLeaves(a, Listed(patches))
  {
    if ListedLeaves(a, Listed(patches)) {
      forall b | ListReleased(a, patches, b)
        ensures b == a - Listed(patches)
      {
        ReleaseExact(a, patches, b);
      }
    } else {
      var c :| c in Listed(patches) && c in a && !Releasable(a, c);
      KeepsOne(a, patches, c);
      var b := a - (Listed(patches) - {c});
      assert c in b && ListReleased(a, patches, b) && b != a - Listed(patches);
    }
  }

  /** And exactly for those the library cannot make the release fail. */
  lemma FailsIffNoLeaves(a: Allocator, patches: seq<Patch>)
    requires ChildrenApart(a) && AllBlockPatches(patches) && SizeSorted(patches)
    ensures MayFail(a, patches) <==> !ListedLeaves(a, Listed(patches))
  {
    if ListedLeaves(a, Listed(patches)) {
      LeavesCannotFail(a, patches);
    } else {
      var c :| c in Listed(patches) && c in a && !Releasable(a, c);
      var i := WhereListed(patches, c);
      KeepsOne(a, patches[..i], c);
      ListedBefore(patches, i);
      StaysUnreleasable(a, c, Listed(patches[..i]));
      var mid := a - (Listed(patches[..i]) - {c});
      assert ListReleased(a, patches[..i], mid) && Unreleasable(mid, patches[i]);
    }
  }

  lemma ListedBefore(patches: seq<Patch>, i: nat)
    requires AllBlockPatches(patches) && SizeSorted(patches) && i < |patches|
    ensures forall x | x in Listed(patches[..i]) :: x.len <= BlockOf(patches[i]).len
  {
    assert patches[..i + 1][..i] == patches[..i];
    ListedSizes(patches[..i + 1]);
  }

  lemma {:induction false} WhereListed(patches: seq<Patch>, c: Prefix) returns (i: nat)
    requires AllBlockPatches(patches) && c in Listed(patches)
    ensures i < |patches| && BlockOf(patches[i]) == c
  {
    i := |patches| - 1;
    if BlockOf(patches[i]) != c {
      i := WhereListed(patches[..i], c);
    }
  }

  /** What the library may make of a readable list: it releases every block when asked to. */
  lemma {:induction false} AllReleased(a: Allocator, patches: seq<Patch>)
    requires ReadableValues(patches)
    ensures ListReleased(a, patches, a - Listed(patches))
  {
    if patches == [] {
      assert a - {} == a;
    } else {
      var init, last := patches[..|patches| - 1], patches[|patches| - 1];
      AllReleased(a, init);
      OneMoreReleased(a - Listed(init), last);
      assert a - Listed(init) - Listed([last]) == a - Listed(patches) by {
        assert [last][..0] == [];
      }
    }
  }

  lemma OneMoreReleased(a: Allocator, patch: Patch)
    requires !patch.value.NotString?
    ensures PatchReleased(a, patch, a - Listed([patch]))
  {
    assert [patch][..0] == [] && Listed([]) == {};
    if patch.value.Str? && patch.value.text.Block? {
      assert Listed([patch]) == {patch.value.text.cidr};
      var c := patch.value.text.cidr;
      assert c in a ==> ReleaseSpec(a, c, Released, a - {c});
    }
    assert a - {} == a;
  }

  /** The operation does not look at the finalizer.  It is sure to be the no-op that is promised
      for a ClusterConfig without it if and only if none of the listed blocks is registered (any
      more). */
  lemma ReleaseWithoutFinalizer(a: Allocator, cc: ClusterConfig)
    requires !cc.finalizer && ReadableValues(cc.patches)
    ensures (forall b | ListReleased(a, cc.patches, b) :: b == a) <==> Listed(cc.patches) !! a.Keys
  {
    var all := a - Listed(cc.patches);
    AllReleased(a, cc.patches);
    assert ListReleased(a, cc.patches, all);
    assert all == a <==> Listed(cc.patches) !! a.Keys by {
      assert forall c | c in Listed(cc.patches) :: c !in all;
    }
    if Listed(cc.patches) !! a.Keys {
      forall b | ListReleased(a, cc.patches, b)
        ensures b == a
      {
        ReleaseFrame(a, cc.patches, b);
        assert b.Keys == a.Keys;
      }
    }
  }

  /** A second release, after the block went to another owner, takes it away from there, and
      the library may hand it out once more. */
  lemma SecondReleaseFreesAnother(p: Prefix, c: Prefix, cc: ClusterConfig, b: Allocator)
    requires StrictlyCovers(p, c)
    requires cc == ClusterConfig([AddPatch("/nodes", Block(c))], false, true, true)
    requires ListReleased(map[p := None, c := Some(p)], cc.patches, b)
    ensures b == map[p := None]
    ensures AcquireSpec(b, p, c.len, Some(c), map[p := None, c := Some(p)])
  {
    var a: Allocator := map[p := None, c := Some(p)];
    assert cc.patches[..0] == [];
    assert Listed(cc.patches) == {c};
    ReleaseExact(a, cc.patches, b);
    assert a - {c} == map[p := None];
    assert b[c := Some(p)] == a;
  }

  /** A block is listed by any patch with its value, whatever the operation. */
  lemma {:induction false} ListedMembers(patches: seq<Patch>, c: Prefix)
    ensures c in Listed(patches) <==> exists x :: x in patches && x.value == Str(Block(c))
  {
    if patches != [] {
      var n := |patches| - 1;
      ListedMembers(patches[..n], c);
      assert patches == patches[..n] + [patches[n]];
    }
  }

  ghost predicate CanSucceed(a: Allocator, patches: seq<Patch>) {
    exists b: Allocator :: ListReleased(a, patches, b)
  }

  /** A release can succeed exactly if no value is something other than a string. */
  lemma {:induction false} SucceedsIffReadable(a: Allocator, patches: seq<Patch>)
    ensures CanSucceed(a, patches) <==> forall x | x in patches :: x.value != NotString
  {
    if CanSucceed(a, patches) {
      var b: Allocator :| ListReleased(a, patches, b);
      ReleasedIsReadable(a, patches, b);
    } else if ReadableValues(patches) {
      AllReleased(a, patches);
      assert CanSucceed(a, patches);
    } else {
      var i :| 0 <= i < |patches| && patches[i].value.NotString?;
      assert patches[i] in patches;
    }
  }

  lemma {:induction false} ReleasedIsReadable(a: Allocator, patches: seq<Patch>, b: Allocator)
    requires ListReleased(a, patches, b)
    ensures forall x | x in patches :: x.value != NotString
  {
    if patches != [] {
      var n := |patches| - 1;
      var mid :| ListReleased(a, patches[..n], mid) && PatchReleased(mid, patches[n], b);
      ReleasedIsReadable(a, patches[..n], mid);
      assert patches == patches[..n] + [patches[n]];
    }
  }
}
