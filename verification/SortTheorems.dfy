/** What the patch sort does, also when some patches cannot be compared: in an insertion sort they
    act as walls, in the merges of a long list not always. */
module SortTheorems {
  import opened Prefixes
  import opened Config
  import opened Patches
  import opened StableSort

  predicate HasSize(p: Patch) {
    SizeOf(p) >= 0
  }

  /** Where Insert puts the patch. */
  function Position(s: seq<Patch>, p: Patch): (q: nat)
    ensures q <= |s|
  {
    if s == [] || !Less(p, s[|s| - 1]) then |s| else Position(s[..|s| - 1], p)
  }

  lemma {:induction false} InsertAtPosition(s: seq<Patch>, p: Patch)
    ensures Insert(Less, s, p) == s[..Position(s, p)] + [p] + s[Position(s, p)..]
  {
    if s == [] || !Less(p, s[|s| - 1]) {
      assert s[..|s|] == s && s[|s|..] == [];
    } else {
      var n, q := |s| - 1, Position(s, p);
      InsertAtPosition(s[..n], p);
      WithLast(s, [p], q);
    }
  }

  lemma WithLast<T>(s: seq<T>, mid: seq<T>, q: nat)
    requires s != [] && q < |s|
    ensures (s[..|s| - 1][..q] + mid + s[..|s| - 1][q..]) + [s[|s| - 1]] == s[..q] + mid + s[q..]
  {
    assert s[..|s| - 1][..q] == s[..q];
    assert s[q..] == s[..|s| - 1][q..] + [s[|s| - 1]];
  }

  /** Everything to the right of it has to come after it. */
  lemma {:induction false} PositionSplits(s: seq<Patch>, p: Patch)
    ensures forall t | Position(s, p) <= t < |s| :: Less(p, s[t])
    ensures Position(s, p) > 0 ==> !Less(p, s[Position(s, p) - 1])
  {
    if s != [] && Less(p, s[|s| - 1]) {
      var n := |s| - 1;
      PositionSplits(s[..n], p);
      assert forall t | 0 <= t < n :: s[t] == s[..n][t];
    }
  }

  /** No wall between i and j, both included. */
  predicate Clear(s: seq<Patch>, i: nat, j: nat) {
    forall t | i <= t <= j && t < |s| :: HasSize(s[t])
  }

  /** Walls stay where they are, nothing passes them, and between them all is in order. */
  ghost predicate SortedBetweenWalls(s: seq<Patch>, r: seq<Patch>) {
    && |r| == |s| && multiset(r) == multiset(s)
    && (forall k | 0 <= k < |s| :: HasSize(s[k]) <==> HasSize(r[k]))
    && (forall k | 0 <= k < |s| && !HasSize(s[k]) :: r[k] == s[k] && multiset(r[..k]) == multiset(s[..k]))
    && (forall i, j | 0 <= i < j < |r| && Clear(r, i, j) :: !Less(r[j], r[i]))
  }

  lemma InsertBetweenWalls(s: seq<Patch>, r: seq<Patch>, p: Patch)
    requires SortedBetweenWalls(s, r)
    ensures SortedBetweenWalls(s + [p], Insert(Less, r, p))
  {
    var q := Position(r, p);
    InsertAtPosition(r, p);
    PositionSplits(r, p);
    InsertKeepsWalls(s, r, p, q);
    forall i, j | 0 <= i < j < |r| + 1 && Clear(Insert(Less, r, p), i, j)
      ensures !Less(Insert(Less, r, p)[j], Insert(Less, r, p)[i])
    {
      InsertKeepsOrder(s, r, p, q, i, j);
    }
  }

  lemma InsertKeepsWalls(s: seq<Patch>, r: seq<Patch>, p: Patch, q: nat)
    requires SortedBetweenWalls(s, r) && q <= |r|
    requires forall t | q <= t < |r| :: Less(p, r[t])
    ensures var s', r' := s + [p], r[..q] + [p] + r[q..];
      && multiset(r') == multiset(s')
      && (forall k | 0 <= k < |s'| :: HasSize(s'[k]) <==> HasSize(r'[k]))
      && (forall k | 0 <= k < |s'| && !HasSize(s'[k]) :: r'[k] == s'[k] && multiset(r'[..k]) == multiset(s'[..k]))
  {
    var s', r' := s + [p], r[..q] + [p] + r[q..];
    assert r == r[..q] + r[q..];
    forall k | 0 <= k < |s'|
      ensures HasSize(s'[k]) <==> HasSize(r'[k])
    {
      if k > q {
        assert r'[k] == r[k - 1] && Less(p, r[k - 1]);
      }
      if q <= k < |r| {
        assert Less(p, r[k]);
      }
    }
    forall k | 0 <= k < |s| && !HasSize(s[k])
      ensures k < q
    {
      assert !HasSize(r[k]);
    }
    forall k | 0 <= k < |s'| && !HasSize(s'[k])
      ensures r'[k] == s'[k] && multiset(r'[..k]) == multiset(s'[..k])
    {
      assert r'[..k] == r[..k] && s'[..k] == s[..k];
      if k == |s| {
        assert r[..k] == r && s[..k] == s;
      }
    }
  }

  lemma InsertKeepsOrder(s: seq<Patch>, r: seq<Patch>, p: Patch, q: nat, i: nat, j: nat)
    requires SortedBetweenWalls(s, r) && q <= |r|
    requires forall t | q <= t < |r| :: Less(p, r[t])
    requires q > 0 ==> !Less(p, r[q - 1])
    requires i < j < |r| + 1 && Clear(r[..q] + [p] + r[q..], i, j)
    ensures var r' := r[..q] + [p] + r[q..]; !Less(r'[j], r'[i])
  {
    var r' := r[..q] + [p] + r[q..];
    assert forall t | 0 <= t < q :: r'[t] == r[t];
    assert r'[q] == p;
    assert forall t | q < t < |r'| :: r'[t] == r[t - 1];
    var i', j' := if i > q then i - 1 else i, if j > q then j - 1 else j;
    if i == q {
      LessTransitive(p, r'[j], p);
    } else if j == q {
      assert Clear(r, i, q - 1);
      assert HasSize(r'[i]) && HasSize(r'[q - 1]) && HasSize(r'[q]);
      LessTransitive(p, r[i], r[q - 1]);
    } else {
      forall t | i' <= t <= j' && t < |r|
        ensures HasSize(r[t])
      {
        assert HasSize(r'[if t < q then t else t + 1]);
      }
      assert Clear(r, i', j');
    }
  }

  lemma {:induction false} InsertionBetweenWalls(s: seq<Patch>)
    ensures SortedBetweenWalls(s, SortByInsertion(s))
  {
    if s != [] {
      var n := |s| - 1;
      InsertionBetweenWalls(s[..n]);
      InsertBetweenWalls(s[..n], SortByInsertion(s[..n]), s[n]);
      assert s == s[..n] + [s[n]];
    }
  }

  /** All patches that can be compared are in order. */
  ghost predicate InOrder(s: seq<Patch>) {
    forall i, j | 0 <= i < j < |s| && HasSize(s[i]) && HasSize(s[j]) :: !Less(s[j], s[i])
  }

  /** No patch is separated by a wall from one it has to come before. */
  ghost predicate NoneBehindWall(s: seq<Patch>) {
    forall i, k, j | 0 <= i < k < j < |s| && !HasSize(s[k]) :: !Less(s[j], s[i])
  }

  // ----- Without pairs separated by a wall, merging changes nothing -----

  /** The position i has to come before j: their patches say so, or neither does and i < j. */
  predicate Precedes(s: seq<Patch>, i: nat, j: nat)
    requires s != []
  {
    if i < j then !Less(At(s, j), At(s, i)) else i > j && Less(At(s, i), At(s, j))
  }

  function At(s: seq<Patch>, i: nat): Patch
    requires s != []
  {
    if i < |s| then s[i] else s[0]
  }

  /** A patch that has to come before an earlier one has no wall between them. */
  lemma OvertakesInClear(s: seq<Patch>, i: nat, j: nat)
    requires NoneBehindWall(s) && i < j < |s| && Less(s[j], s[i])
    ensures forall k | i <= k <= j :: HasSize(s[k])
  {
  }

  lemma PrecedesTransitive(s: seq<Patch>, i: nat, j: nat, k: nat)
    requires NoneBehindWall(s) && i < |s| && j < |s| && k < |s|
    requires Precedes(s, i, j) && Precedes(s, j, k)
    ensures Precedes(s, i, k)
  {
    if i < k && Less(s[k], s[i]) {
      OvertakesInClear(s, i, k);
    } else if k < j && Less(s[j], s[k]) {
      OvertakesInClear(s, k, j);
    } else if j < i && Less(s[i], s[j]) {
      OvertakesInClear(s, j, i);
    }
    if HasSize(s[i]) && HasSize(s[j]) && HasSize(s[k]) {
      LessTransitive(s[i], s[j], s[k]);
      LessTransitive(s[k], s[i], s[j]);
      LessTransitive(s[j], s[k], s[i]);
      LessTransitive(s[k], s[j], s[i]);
      LessTransitive(s[i], s[k], s[j]);
      LessTransitive(s[j], s[i], s[k]);
    }
  }

  function PositionOrder(s: seq<Patch>): Order
    requires s != []
  {
    (i: nat, j: nat) => Precedes(s, i, j)
  }

  function PatchAt(s: seq<Patch>): nat -> Patch
    requires s != []
  {
    (i: nat) => At(s, i)
  }

  lemma PositionOrderIsStrict(s: seq<Patch>)
    requires s != [] && NoneBehindWall(s)
    ensures StrictOrder(PositionOrder(s), |s|)
  {
    var lt := PositionOrder(s);
    forall i, j, k | 0 <= i < |s| && 0 <= j < |s| && 0 <= k < |s| && lt(i, j) && lt(j, k)
      ensures lt(i, k)
    {
      PrecedesTransitive(s, i, j, k);
    }
  }

  lemma PositionOrderAgrees(s: seq<Patch>)
    requires s != []
    ensures Agree(Less, PositionOrder(s), PatchAt(s))
  {
  }

  /** Up to 20 patches are sorted by insertion, and longer lists as if they were, provided that no
      wall keeps two patches apart in the wrong order. */
  lemma SortIsInsertionSort(s: seq<Patch>)
    requires |s| <= 20 || NoneBehindWall(s)
    ensures SortPatches(s) == SortByInsertion(s)
  {
    if |s| <= 20 {
      ShortListsAreInserted(s);
    } else {
      var u: seq<nat> := seq(|s|, i => i);
      PositionOrderIsStrict(s);
      PositionOrderAgrees(s);
      SortIsInsertion(Less, PositionOrder(s), |s|, PatchAt(s), u);
      assert Named(PatchAt(s), u) == s;
    }
  }

  /** The full description of the result, for lists that are sorted by insertion, or as if. */
  lemma SortBetweenWalls(s: seq<Patch>)
    ensures SortedBetweenWalls(s, SortByInsertion(s))
    ensures |s| <= 20 || NoneBehindWall(s) ==> SortedBetweenWalls(s, SortPatches(s))
  {
    InsertionBetweenWalls(s);
    if |s| <= 20 || NoneBehindWall(s) {
      SortIsInsertionSort(s);
    }
  }

  lemma InsertionWorksIffNoWallBetween(s: seq<Patch>)
    ensures InOrder(SortByInsertion(s)) <==> NoneBehindWall(s)
  {
    InsertionBetweenWalls(s);
    if InOrder(SortByInsertion(s)) {
      OrderNeedsNoWall(s, SortByInsertion(s));
    }
    if NoneBehindWall(s) {
      NoWallGivesOrder(s, SortByInsertion(s));
    }
  }

  /** If no wall keeps two patches apart in the wrong order, the sort puts large blocks before small
      ones, and up to 20 patches only then. */
  lemma SortWorksIffNoWallBetween(s: seq<Patch>)
    ensures NoneBehindWall(s) ==> InOrder(SortPatches(s))
    ensures |s| <= 20 && InOrder(SortPatches(s)) ==> NoneBehindWall(s)
  {
    InsertionWorksIffNoWallBetween(s);
    if |s| <= 20 || NoneBehindWall(s) {
      SortIsInsertionSort(s);
    }
  }

  lemma {:induction false} SortedStaysSorted(s: seq<Patch>)
    requires Ordered(s)
    ensures SortByInsertion(s) == s
  {
    if s != [] {
      SortedStaysSorted(s[..|s| - 1]);
    }
  }

  lemma ShortStaysSorted(s: seq<Patch>)
    requires Ordered(s) && |s| <= 20
    ensures SortPatches(s) == s
  {
    ShortListsAreInserted(s);
    SortedStaysSorted(s);
  }

  /** If every patch is an "add" with a readable size, the result is ordered by mask length
      and then by path. */
  lemma SortOrders(s: seq<Patch>)
    requires AllSized(s)
    ensures Ordered(SortPatches(s)) && AllSized(SortPatches(s))
  {
    SortWorksIffNoWallBetween(s);
    var r := SortPatches(s);
    forall i | 0 <= i < |r|
      ensures HasSize(r[i])
    {
      assert r[i] in multiset(s);
    }
  }

  lemma OrderNeedsNoWall(s: seq<Patch>, r: seq<Patch>)
    requires SortedBetweenWalls(s, r) && InOrder(r)
    ensures NoneBehindWall(s)
  {
    forall i, k, j | 0 <= i < k < j < |s| && !HasSize(s[k])
      ensures !Less(s[j], s[i])
    {
      var i' := MovedBefore(s, r, k, i);
      var j' := MovedAfter(s, r, k, j);
      assert HasSize(r[i']) && HasSize(r[j']) ==> !Less(r[j'], r[i']);
    }
  }

  lemma NoWallGivesOrder(s: seq<Patch>, r: seq<Patch>)
    requires SortedBetweenWalls(s, r) && NoneBehindWall(s)
    ensures InOrder(r)
  {
    forall i, j | 0 <= i < j < |r| && HasSize(r[i]) && HasSize(r[j])
      ensures !Less(r[j], r[i])
    {
      if k :| i <= k <= j && !HasSize(r[k]) {
        assert !HasSize(s[k]) && i < k < j;
        var i' := MovedBefore(r, s, k, i);
        var j' := MovedAfter(r, s, k, j);
        assert !Less(s[j'], s[i']);
      } else {
        assert Clear(r, i, j);
      }
    }
  }

  lemma MovedBefore(s: seq<Patch>, r: seq<Patch>, k: nat, i: nat) returns (i': nat)
    requires i < k < |s| == |r| && multiset(r[..k]) == multiset(s[..k])
    ensures i' < k && r[i'] == s[i]
  {
    assert s[..k][i] in multiset(r[..k]);
    i' :| 0 <= i' < k && r[..k][i'] == s[i];
  }

  lemma SplitCount<T>(s: seq<T>, k: nat, x: T)
    requires k < |s|
    ensures multiset(s)[x] == multiset(s[..k])[x] + (if s[k] == x then 1 else 0) + multiset(s[k + 1..])[x]
  {
    assert s == s[..k] + ([s[k]] + s[k + 1..]);
  }

  lemma MovedAfter(s: seq<Patch>, r: seq<Patch>, k: nat, j: nat) returns (j': nat)
    requires k < j < |s| == |r| && multiset(r) == multiset(s) && multiset(r[..k]) == multiset(s[..k]) && r[k] == s[k]
    ensures k < j' < |r| && r[j'] == s[j]
  {
    SplitCount(s, k, s[j]);
    SplitCount(r, k, s[j]);
    assert s[k + 1..][j - k - 1] == s[j];
    assert s[j] in multiset(s[k + 1..]);
    assert s[j] in multiset(r[k + 1..]);
    var t :| 0 <= t < |r[k + 1..]| && r[k + 1..][t] == s[j];
    j' := k + 1 + t;
  }

  // ----- Patch lists generated from a map of injections -----

  lemma ListedInBoth(o1: seq<string>, o2: seq<string>, injections: Injections, x: Patch)
    requires Enumerates(o1, injections.Keys) && Enumerates(o2, injections.Keys) && x in Listing(o1, injections)
    ensures x in Listing(o2, injections)
  {
    var i :| 0 <= i < |o1| && Listing(o1, injections)[i] == x;
    assert o1[i] in o2;
    var j :| 0 <= j < |o2| && o2[j] == o1[i];
    assert Listing(o2, injections)[j] == x;
  }

  /** The map's iteration order has no influence on the sorted patch list. */
  lemma ListingOrderIrrelevant(o1: seq<string>, o2: seq<string>, injections: Injections)
    requires Enumerates(o1, injections.Keys) && Enumerates(o2, injections.Keys) && Sized(injections)
    ensures SortPatches(Listing(o1, injections)) == SortPatches(Listing(o2, injections))
    ensures Ordered(SortPatches(Listing(o1, injections)))
    ensures DistinctPaths(SortPatches(Listing(o1, injections)))
  {
    var s, t := Listing(o1, injections), Listing(o2, injections);
    forall x
      ensures multiset(s)[x] == multiset(t)[x]
    {
      MultisetOfDistinct(s, x);
      MultisetOfDistinct(t, x);
      if x in s {
        ListedInBoth(o1, o2, injections, x);
      } else if x in t {
        ListedInBoth(o2, o1, injections, x);
      }
    }
    assert multiset(s) == multiset(t);
    SortOrders(s);
    SortOrders(t);
    PermutationKeepsPaths(s, SortPatches(s));
    OrderedUnique(SortPatches(s), SortPatches(t));
  }

  function ThreePatches(small: Prefix, large: Prefix): seq<Patch> {
    [AddPatch("/a", Block(small)), AddPatch("/b", Junk("unreadable", -1)), AddPatch("/c", Block(large))]
  }

  /** For instance a /24, something unreadable and a /16: the /16 stays behind the /24. */
  lemma UnreadableKeepsSmallFirst(small: Prefix, large: Prefix)
    requires small.len == 24 && large.len == 16
    ensures SortPatches(ThreePatches(small, large)) == ThreePatches(small, large)
    ensures !InOrder(SortPatches(ThreePatches(small, large)))
  {
    var s := ThreePatches(small, large);
    var r := SortPatches(s);
    SortBetweenWalls(s);
    assert SizeOf(s[0]) == 24 && SizeOf(s[1]) == -1 && SizeOf(s[2]) == 16;
    WallInTheMiddle(s, r);
    assert Less(s[2], s[0]);
  }

  lemma WallInTheMiddle(s: seq<Patch>, r: seq<Patch>)
    requires SortedBetweenWalls(s, r) && |s| == 3 && !HasSize(s[1])
    ensures r == s
  {
    var a := MovedBefore(s, r, 1, 0);
    var c := MovedAfter(s, r, 1, 2);
  }

  // ----- Of more than 20 patches, some may be merged past a wall -----

  /** The search for the place of the last patch looks at the places 10, 5, 2, 1 and 0 only. */
  lemma MergedPastWall(s: seq<Patch>)
    requires |s| == 21 && Ordered(s[..20])
    requires forall i | i == 0 || i == 1 || i == 2 || i == 5 || i == 10 :: Less(s[20], s[i])
    ensures SortPatches(s) == [s[20]] + s[..20]
  {
    SortedStaysSorted(s[..20]);
    assert SortBlocks(Less, s[20..]) == [s[20]];
    assert SortBlocks(Less, s) == s[..20] + [s[20]] == s;
    var q := NotAfter(s[20]);
    assert Search(Less, s, q, 0, 20) == Search(Less, s, q, 0, 10) == Search(Less, s, q, 0, 5);
    assert Search(Less, s, q, 0, 5) == Search(Less, s, q, 0, 2) == Search(Less, s, q, 0, 1) == 0;
    assert SymMerge(Less, s, 20) == LastMoved(s, 0) == [s[20]] + s[..20];
    assert MergeAll(Less, s, 20) == MergeAll(Less, [s[20]] + s[..20], 40) == [s[20]] + s[..20];
  }

  /** Twenty patches in order, the one at 3 a wall, and one that has to come before the other 19. */
  ghost predicate WallInLongList(s: seq<Patch>) {
    && |s| == 21
    && (forall i | 0 <= i < 21 :: HasSize(s[i]) <==> i != 3)
    && (forall i, j | 0 <= i < j < 20 :: !Less(s[j], s[i]))
    && (forall i | 0 <= i < 20 && i != 3 :: Less(s[20], s[i]))
  }

  lemma WallIsPassed(s: seq<Patch>)
    requires WallInLongList(s)
    ensures InOrder(SortPatches(s)) && !NoneBehindWall(s) && SortPatches(s)[4] == s[3]
    ensures SortPatches(s) != SortByInsertion(s)
  {
    MergedPastWall(s);
    var r := SortPatches(s);
    assert !HasSize(s[3]) && Less(s[20], s[0]);
    InsertionBetweenWalls(s);
    assert SortByInsertion(s)[3] == s[3] && HasSize(r[3]);
    InOrderPastWall(s);
  }

  lemma InOrderPastWall(s: seq<Patch>)
    requires WallInLongList(s)
    ensures InOrder([s[20]] + s[..20])
  {
    var r := [s[20]] + s[..20];
    forall i, j | 0 <= i < j < |r| && HasSize(r[i]) && HasSize(r[j])
      ensures !Less(r[j], r[i])
    {
      assert r[j] == s[j - 1] && (i > 0 ==> r[i] == s[i - 1]);
      LessTransitive(r[i], r[j], r[i]);
    }
  }

  function LongList(small: Prefix, large: Prefix): (s: seq<Patch>)
    ensures |s| == 21
  {
    seq(20, i requires 0 <= i < 20 =>
      AddPatch(['/', 'a' + i as char], if i == 3 then Junk("unreadable", -1) else Block(small)))
    + [AddPatch("/u", Block(large))]
  }

  lemma LongListOrder(small: Prefix, large: Prefix, i: nat, j: nat)
    requires small.len == 24 && large.len == 16 && i < j < 21
    ensures var s := LongList(small, large);
      && (HasSize(s[i]) <==> i != 3) && (HasSize(s[j]) <==> j != 3)
      && (j < 20 ==> !Less(s[j], s[i])) && (j == 20 && i != 3 ==> Less(s[j], s[i]))
  {
    var s := LongList(small, large);
    if j < 20 {
      var p, r := s[j].path, s[i].path;
      assert p[0] == r[0] && p[1] > r[1];
      assert !LexLess(p[1..], r[1..]);
    }
  }

  /** For instance twenty blocks of length 24, the fourth of them unreadable, and then a /16.  It is
      merged past all of them, and so the readable ones are in order, although a wall kept it apart
      from the first three; and the unreadable one is not where it was. */
  lemma UnreadableIsPassed(small: Prefix, large: Prefix)
    requires small.len == 24 && large.len == 16
    ensures var s := LongList(small, large);
      && InOrder(SortPatches(s)) && !NoneBehindWall(s)
      && !HasSize(s[3]) && SortPatches(s)[4] == s[3] && SortPatches(s) != SortByInsertion(s)
  {
    var s := LongList(small, large);
    forall i: nat, j: nat | i < j < 21
      ensures (HasSize(s[i]) <==> i != 3) && (HasSize(s[j]) <==> j != 3)
      ensures if j < 20 then !Less(s[j], s[i]) else i != 3 ==> Less(s[j], s[i])
    {
      LongListOrder(small, large, i, j);
    }
    WallIsPassed(s);
  }
}
