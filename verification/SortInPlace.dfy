/** The stable sort on an array, as the Go library runs it. */
module SortInPlace {
  import opened StableSort

  /** From lo to hi the array has changed to r, and nowhere else. */
  ghost predicate Became<T>(was: seq<T>, now: seq<T>, lo: nat, hi: nat, r: seq<T>) {
    && lo <= hi <= |was| == |now| && |r| == hi - lo
    && now == was[..lo] + r + was[hi..]
  }

  // ----- Insertion -----

  /** Moves the element at i left, past everything it has to come before. */
  method MoveLeft<T>(less: (T, T) -> bool, a: array<T>, lo: nat, i: nat)
    requires lo <= i < a.Length
    modifies a
    ensures Became(old(a[..]), a[..], lo, i + 1, Insert(less, old(a[lo..i]), old(a[i])))
  {
    ghost var was := a[..];
    var j := i;
    while j > lo && less(a[j], a[j - 1])
      invariant lo <= j <= i
      invariant Moved(was, a[..], j, i)
      invariant forall k | j <= k < i :: less(was[i], was[k])
    {
      a[j - 1], a[j] := a[j], a[j - 1];
      j := j - 1;
    }
    MovedLeft(less, was, a[..], lo, j, i);
  }

  /** The element at i has been moved left to j. */
  ghost predicate Moved<T>(was: seq<T>, now: seq<T>, j: nat, i: nat) {
    && j <= i < |was| == |now| && now[j] == was[i]
    && (forall k | j < k <= i :: now[k] == was[k - 1])
    && (forall k | 0 <= k < j || i < k < |was| :: now[k] == was[k])
  }

  lemma MovedLeft<T>(less: (T, T) -> bool, was: seq<T>, now: seq<T>, lo: nat, j: nat, i: nat)
    requires Moved(was, now, j, i) && lo <= j && (j > lo ==> !less(was[i], was[j - 1]))
    requires forall k | j <= k < i :: less(was[i], was[k])
    ensures Became(was, now, lo, i + 1, Insert(less, was[lo..i], was[i]))
  {
    InsertedAt(less, was[lo..i], was[i], j - lo);
    assert now == was[..lo] + (was[lo..i][..j - lo] + [was[i]] + was[lo..i][j - lo..]) + was[i + 1..];
  }

  lemma {:induction false} InsertedAt<T>(less: (T, T) -> bool, s: seq<T>, x: T, j: nat)
    requires j <= |s| && (j > 0 ==> !less(x, s[j - 1])) && forall k | j <= k < |s| :: less(x, s[k])
    ensures Insert(less, s, x) == s[..j] + [x] + s[j..]
  {
    var n := |s| - 1;
    if j <= n {
      InsertedAt(less, s[..n], x, j);
      assert s[j..] == s[..n][j..] + [s[n]];
    }
  }

  /** The elements from lo to hi have been sorted by insertion. */
  ghost predicate Inserted<T>(less: (T, T) -> bool, was: seq<T>, now: seq<T>, lo: nat, hi: nat) {
    lo <= hi <= |was| && Became(was, now, lo, hi, InsertionSort(less, was[lo..hi]))
  }

  method InsertionSortRange<T>(less: (T, T) -> bool, a: array<T>, lo: nat, hi: nat)
    requires lo <= hi <= a.Length
    modifies a
    ensures Inserted(less, old(a[..]), a[..], lo, hi)
  {
    for i := lo to hi
      invariant Inserted(less, old(a[..]), a[..], lo, i)
    {
      ghost var before := a[..];
      MoveLeft(less, a, lo, i);
      OneMoreInserted(less, old(a[..]), before, a[..], lo, i);
    }
  }

  lemma OneMoreInserted<T>(less: (T, T) -> bool, was: seq<T>, before: seq<T>, now: seq<T>, lo: nat, i: nat)
    requires i < |was| && Inserted(less, was, before, lo, i)
    requires Became(before, now, lo, i + 1, Insert(less, before[lo..i], before[i]))
    ensures Inserted(less, was, now, lo, i + 1)
  {
    var s := was[lo..i + 1];
    assert s[..i - lo] == was[lo..i] && before[lo..i] == InsertionSort(less, was[lo..i]) && before[i] == s[i - lo];
    assert InsertionSort(less, s) == Insert(less, before[lo..i], before[i]);
  }

  // ----- Merging -----

  /** The search among the elements from lo to hi, with places counted from lo. */
  method Find<T>(less: (T, T) -> bool, a: array<T>, lo: nat, hi: nat, q: Question<T>, i: nat, j: nat) returns (r: nat)
    requires lo <= hi <= a.Length && i <= j <= hi - lo
    ensures r == Search(less, a[lo..hi], q, i, j)
  {
    r := i;
    var k := j;
    while r < k
      invariant i <= r <= k <= j
      invariant Search(less, a[lo..hi], q, r, k) == Search(less, a[lo..hi], q, i, j)
    {
      var h := (r + k) / 2;
      if Yes(less, a[lo..hi], q, h) {
        r := h + 1;
      } else {
        k := h;
      }
    }
  }

  method MoveFirst<T>(a: array<T>, lo: nat, i: nat, hi: nat)
    requires 1 <= i && lo + i <= hi <= a.Length
    modifies a
    ensures Became(old(a[..]), a[..], lo, hi, FirstMoved(old(a[lo..hi]), i))
  {
    ghost var was := a[..];
    for k := lo to lo + i - 1
      invariant Moved(a[..], was, lo, k)
    {
      a[k], a[k + 1] := a[k + 1], a[k];
    }
    MovedRight(was, a[..], lo, i, hi);
  }

  lemma MovedRight<T>(was: seq<T>, now: seq<T>, lo: nat, i: nat, hi: nat)
    requires 1 <= i && lo + i <= hi <= |was| && Moved(now, was, lo, lo + i - 1)
    ensures Became(was, now, lo, hi, FirstMoved(was[lo..hi], i))
  {
    var s := was[lo..hi];
    assert now[..lo] == was[..lo] && now[lo + i..] == was[lo + i..];
    forall t | 0 <= t < i - 1
      ensures now[lo..lo + i - 1][t] == s[1..i][t]
    {
      var k := lo + t + 1;
      assert was[k] == now[k - 1];
    }
    assert now[lo..lo + i - 1] == s[1..i];
    assert now[lo + i - 1] == s[0] && s[i..] + was[hi..] == was[lo + i..];
    assert now == now[..lo] + (now[lo..lo + i - 1] + [now[lo + i - 1]] + now[lo + i..]);
  }

  method MoveLast<T>(a: array<T>, lo: nat, i: nat, hi: nat)
    requires lo + i < hi <= a.Length
    modifies a
    ensures Became(old(a[..]), a[..], lo, hi, LastMoved(old(a[lo..hi]), i))
  {
    ghost var was := a[..];
    var k := hi - 1;
    while k > lo + i
      invariant lo + i <= k < hi && Moved(was, a[..], k, hi - 1)
    {
      a[k], a[k - 1] := a[k - 1], a[k];
      k := k - 1;
    }
    MovedToLeft(was, a[..], lo, i, hi);
  }

  lemma MovedToLeft<T>(was: seq<T>, now: seq<T>, lo: nat, i: nat, hi: nat)
    requires lo + i < hi <= |was| && Moved(was, now, lo + i, hi - 1)
    ensures Became(was, now, lo, hi, LastMoved(was[lo..hi], i))
  {
    assert now == was[..lo] + LastMoved(was[lo..hi], i) + was[hi..];
  }

  method Exchange<T>(a: array<T>, lo: nat, start: nat, m: nat, end: nat, hi: nat)
    requires start <= m <= end && lo + end <= hi <= a.Length
    modifies a
    ensures Became(old(a[..]), a[..], lo, hi, Rotated(old(a[lo..hi]), start, m, end))
  {
    ghost var was := a[..];
    var shift := end - m;
    forall k | lo + start <= k < lo + end {
      a[k] := if k < lo + start + shift then a[k + m - start] else a[k - shift];
    }
    ExchangedRange(was, a[..], lo, start, m, end, hi);
  }

  lemma ExchangedRange<T>(was: seq<T>, now: seq<T>, lo: nat, start: nat, m: nat, end: nat, hi: nat)
    requires start <= m <= end && lo + end <= hi <= |was| == |now|
    requires forall k | lo + start <= k < lo + start + (end - m) :: now[k] == was[k + m - start]
    requires forall k | lo + start + (end - m) <= k < lo + end :: now[k] == was[k - (end - m)]
    requires forall k | 0 <= k < lo + start || lo + end <= k < |was| :: now[k] == was[k]
    ensures Became(was, now, lo, hi, Rotated(was[lo..hi], start, m, end))
  {
    assert now == was[..lo] + Rotated(was[lo..hi], start, m, end) + was[hi..];
  }

  /** The two runs that meet m places after lo have been merged. */
  ghost predicate Merged<T>(less: (T, T) -> bool, was: seq<T>, now: seq<T>, lo: nat, m: nat, hi: nat) {
    0 < m && lo + m < hi <= |was| && Became(was, now, lo, hi, SymMerge(less, was[lo..hi], m))
  }

  method MergeRange<T>(less: (T, T) -> bool, a: array<T>, lo: nat, m: nat, hi: nat)
    requires 0 < m && lo + m < hi <= a.Length
    modifies a
    ensures Merged(less, old(a[..]), a[..], lo, m, hi)
    decreases hi - lo, 2
  {
    if m == 1 {
      PlaceFirst(less, a, lo, hi);
    } else if hi - lo - m == 1 {
      PlaceLast(less, a, lo, hi);
    } else {
      MergeAround(less, a, lo, m, hi);
    }
  }

  method MergeAround<T>(less: (T, T) -> bool, a: array<T>, lo: nat, m: nat, hi: nat)
    requires 1 < m && lo + m + 1 < hi <= a.Length
    modifies a
    ensures Merged(less, old(a[..]), a[..], lo, m, hi)
    decreases hi - lo, 1
  {
    ghost var was := a[..];
    var start := FindSplit(less, a, lo, m, hi);
    Exchange(a, lo, start, m, (hi - lo) / 2 + m - start, hi);
    ghost var mid := a[..];
    MergeHalvesRange(less, a, lo, start, m - start, hi);
    MergedHalves(less, was, mid, a[..], lo, m, start, hi);
  }

  method PlaceFirst<T>(less: (T, T) -> bool, a: array<T>, lo: nat, hi: nat)
    requires lo + 1 < hi <= a.Length
    modifies a
    ensures Merged(less, old(a[..]), a[..], lo, 1, hi)
  {
    ghost var was := a[..];
    var i := Find(less, a, lo, hi, Before(a[lo]), 1, hi - lo);
    MoveFirst(a, lo, i, hi);
    MergedFirst(less, was, a[..], lo, i, hi);
  }

  method PlaceLast<T>(less: (T, T) -> bool, a: array<T>, lo: nat, hi: nat)
    requires lo + 2 < hi <= a.Length
    modifies a
    ensures Merged(less, old(a[..]), a[..], lo, hi - lo - 1, hi)
  {
    ghost var was := a[..];
    var i := Find(less, a, lo, hi, NotAfter(a[hi - 1]), 0, hi - lo - 1);
    MoveLast(a, lo, i, hi);
    MergedLast(less, was, a[..], lo, i, hi);
  }

  method FindSplit<T>(less: (T, T) -> bool, a: array<T>, lo: nat, m: nat, hi: nat) returns (start: nat)
    requires 0 < m && lo + m < hi <= a.Length
    ensures start == SplitPoint(less, a[lo..hi], m)
  {
    var n := hi - lo;
    start := Find(less, a, lo, hi, NotAfterMirror(n / 2 + m - 1), FewestStay(n, m), MostStay(n, m));
  }

  lemma MergedFirst<T>(less: (T, T) -> bool, was: seq<T>, now: seq<T>, lo: nat, i: nat, hi: nat)
    requires lo + 1 < hi <= |was| && i == Search(less, was[lo..hi], Before(was[lo]), 1, hi - lo)
    requires Became(was, now, lo, hi, FirstMoved(was[lo..hi], i))
    ensures Merged(less, was, now, lo, 1, hi)
  {
  }

  lemma MergedLast<T>(less: (T, T) -> bool, was: seq<T>, now: seq<T>, lo: nat, i: nat, hi: nat)
    requires lo + 2 < hi <= |was| && i == Search(less, was[lo..hi], NotAfter(was[hi - 1]), 0, hi - lo - 1)
    requires Became(was, now, lo, hi, LastMoved(was[lo..hi], i))
    ensures Merged(less, was, now, lo, hi - lo - 1, hi)
  {
  }

  lemma MergedHalves<T>(less: (T, T) -> bool, was: seq<T>, mid: seq<T>, now: seq<T>, lo: nat, m: nat, start: nat,
                        hi: nat)
    requires lo + 2 < hi <= |was| && 1 < m < hi - lo - 1 && start == SplitPoint(less, was[lo..hi], m)
    requires Became(was, mid, lo, hi, Rotated(was[lo..hi], start, m, (hi - lo) / 2 + m - start))
    requires |mid| == |was| && HalvesMerged(less, mid, now, lo, start, m - start, hi)
    ensures Merged(less, was, now, lo, m, hi)
  {
    assert mid[lo..hi] == Exchanged(was[lo..hi], m, start);
  }

  ghost predicate HalvesMerged<T>(less: (T, T) -> bool, was: seq<T>, now: seq<T>, lo: nat, k: nat, l: nat, hi: nat) {
    lo + 1 < hi <= |was| && Became(was, now, lo, hi, MergeHalves(less, was[lo..hi], k, l))
  }

  method MergeHalvesRange<T>(less: (T, T) -> bool, a: array<T>, lo: nat, k: nat, l: nat, hi: nat)
    requires lo + 1 < hi <= a.Length
    modifies a
    ensures HalvesMerged(less, old(a[..]), a[..], lo, k, l, hi)
    decreases hi - lo, 0
  {
    ghost var was := a[..];
    var mid := lo + (hi - lo) / 2;
    MergePartsRange(less, a, lo, k, mid);
    ghost var half := a[..];
    MergePartsRange(less, a, mid, l, hi);
    BothHalves(less, was, half, a[..], lo, k, mid, l, hi);
  }

  method MergePartsRange<T>(less: (T, T) -> bool, a: array<T>, lo: nat, m: nat, hi: nat)
    requires lo <= hi <= a.Length
    modifies a
    ensures Became(old(a[..]), a[..], lo, hi, MergeParts(less, old(a[lo..hi]), m))
    decreases hi - lo, 3
  {
    if 0 < m < hi - lo {
      MergeRange(less, a, lo, m, hi);
    }
  }

  lemma BothHalves<T>(less: (T, T) -> bool, was: seq<T>, half: seq<T>, now: seq<T>, lo: nat, k: nat, mid: nat, l: nat,
                      hi: nat)
    requires lo + 1 < hi <= |was| && mid == lo + (hi - lo) / 2
    requires Became(was, half, lo, mid, MergeParts(less, was[lo..mid], k))
    requires |half| == |was| && Became(half, now, mid, hi, MergeParts(less, half[mid..hi], l))
    ensures HalvesMerged(less, was, now, lo, k, l, hi)
  {
    assert half[mid..hi] == was[mid..hi] == was[lo..hi][mid - lo..] && was[lo..mid] == was[lo..hi][..mid - lo];
    JoinRanges(was, half, now, lo, mid, hi, MergeParts(less, was[lo..mid], k), MergeParts(less, was[mid..hi], l));
  }

  lemma JoinRanges<T>(was: seq<T>, half: seq<T>, now: seq<T>, lo: nat, mid: nat, hi: nat, l: seq<T>, r: seq<T>)
    requires lo <= mid <= hi && Became(was, half, lo, mid, l) && Became(half, now, mid, hi, r)
    ensures Became(was, now, lo, hi, l + r)
  {
  }

  // ----- The whole sort -----

  method SortBlocksInPlace<T>(less: (T, T) -> bool, a: array<T>)
    modifies a
    ensures a[..] == SortBlocks(less, old(a[..]))
  {
    ghost var was := a[..];
    var lo := 0;
    while lo + BLOCK <= a.Length
      invariant lo <= a.Length && a[lo..] == was[lo..]
      invariant a[..lo] + SortBlocks(less, was[lo..]) == SortBlocks(less, was)
    {
      ghost var before := a[..];
      InsertionSortRange(less, a, lo, lo + BLOCK);
      OneBlockMore(less, was, before, a[..], lo);
      lo := lo + BLOCK;
    }
    ghost var before := a[..];
    InsertionSortRange(less, a, lo, a.Length);
    RestSorted(less, was, before, a[..], lo);
  }

  lemma RestSorted<T>(less: (T, T) -> bool, was: seq<T>, before: seq<T>, now: seq<T>, lo: nat)
    requires lo <= |was| == |before| && |was| < lo + BLOCK && before[lo..] == was[lo..]
    requires before[..lo] + SortBlocks(less, was[lo..]) == SortBlocks(less, was)
    requires Inserted(less, before, now, lo, |was|)
    ensures now == SortBlocks(less, was)
  {
    assert before[lo..|was|] == was[lo..];
  }

  lemma OneBlockMore<T>(less: (T, T) -> bool, was: seq<T>, before: seq<T>, now: seq<T>, lo: nat)
    requires lo + BLOCK <= |was| == |before| && before[lo..] == was[lo..]
    requires before[..lo] + SortBlocks(less, was[lo..]) == SortBlocks(less, was)
    requires Inserted(less, before, now, lo, lo + BLOCK)
    ensures now[lo + BLOCK..] == was[lo + BLOCK..]
    ensures now[..lo + BLOCK] + SortBlocks(less, was[lo + BLOCK..]) == SortBlocks(less, was)
  {
    var rest, hi := was[lo..], lo + BLOCK;
    assert before[lo..hi] == rest[..BLOCK] && rest[BLOCK..] == was[hi..];
    BlocksSplit(less, rest);
    PartJoined(before, now, lo, hi, InsertionSort(less, rest[..BLOCK]), SortBlocks(less, rest[BLOCK..]));
  }

  lemma BlocksSplit<T>(less: (T, T) -> bool, s: seq<T>)
    requires BLOCK <= |s|
    ensures SortBlocks(less, s) == InsertionSort(less, s[..BLOCK]) + SortBlocks(less, s[BLOCK..])
  {
    assert |s| == BLOCK ==> s[..BLOCK] == s;
  }

  lemma PartJoined<T>(before: seq<T>, now: seq<T>, lo: nat, hi: nat, part: seq<T>, rest: seq<T>)
    requires Became(before, now, lo, hi, part)
    ensures now[..hi] + rest == before[..lo] + (part + rest) && now[hi..] == before[hi..]
  {
  }

  /** From lo on, neighbouring blocks of k elements have been merged. */
  ghost predicate PassDone<T>(less: (T, T) -> bool, was: seq<T>, now: seq<T>, lo: nat, k: nat) {
    k > 0 && lo <= |was| && Became(was, now, lo, |was|, MergePass(less, was[lo..], k))
  }

  method MergePassFrom<T>(less: (T, T) -> bool, a: array<T>, lo: nat, k: nat)
    requires k > 0 && lo <= a.Length
    modifies a
    ensures PassDone(less, old(a[..]), a[..], lo, k)
    decreases a.Length - lo
  {
    ghost var was := a[..];
    if lo + 2 * k < a.Length {
      MergeRange(less, a, lo, k, lo + 2 * k);
      ghost var mid := a[..];
      MergePassFrom(less, a, lo + 2 * k, k);
      OnePairMore(less, was, mid, a[..], lo, k);
    } else {
      if lo + k < a.Length {
        MergeRange(less, a, lo, k, a.Length);
      }
      LastPair(less, was, a[..], lo, k);
    }
  }

  lemma LastPair<T>(less: (T, T) -> bool, was: seq<T>, now: seq<T>, lo: nat, k: nat)
    requires k > 0 && lo <= |was| <= lo + 2 * k
    requires if lo + k < |was| then Merged(less, was, now, lo, k, |was|) else now == was
    ensures PassDone(less, was, now, lo, k)
  {
    assert was[lo..] == was[lo..|was|];
  }

  lemma OnePairMore<T>(less: (T, T) -> bool, was: seq<T>, mid: seq<T>, now: seq<T>, lo: nat, k: nat)
    requires k > 0 && lo + 2 * k < |was| == |mid|
    requires Merged(less, was, mid, lo, k, lo + 2 * k) && PassDone(less, mid, now, lo + 2 * k, k)
    ensures PassDone(less, was, now, lo, k)
  {
    var hi := lo + 2 * k;
    SplitRest(was, mid, hi);
    JoinRanges(was, mid, now, lo, hi, |was|, SymMerge(less, was[lo..hi], k), MergePass(less, was[hi..], k));
    PassSplits(less, was, lo, hi, k);
  }

  lemma SplitRest<T>(was: seq<T>, mid: seq<T>, hi: nat)
    requires exists lo, r :: Became(was, mid, lo, hi, r)
    ensures hi <= |was| == |mid| && mid[hi..] == was[hi..]
  {
  }

  lemma PassSplits<T>(less: (T, T) -> bool, s: seq<T>, lo: nat, hi: nat, k: nat)
    requires 0 < k && hi == lo + 2 * k < |s|
    ensures MergePass(less, s[lo..], k) == SymMerge(less, s[lo..hi], k) + MergePass(less, s[hi..], k)
  {
    assert s[lo..hi] == s[lo..][..2 * k] && s[hi..] == s[lo..][2 * k..];
  }

  ghost predicate AllMerged<T>(less: (T, T) -> bool, was: seq<T>, now: seq<T>, k: nat) {
    k > 0 && now == MergeAll(less, was, k)
  }

  method MergeAllInPlace<T>(less: (T, T) -> bool, a: array<T>, k: nat)
    requires k > 0
    modifies a
    ensures AllMerged(less, old(a[..]), a[..], k)
    decreases a.Length - k
  {
    ghost var was := a[..];
    if k < a.Length {
      MergePassFrom(less, a, 0, k);
      ghost var mid := a[..];
      MergeAllInPlace(less, a, 2 * k);
      OnePassMore(less, was, mid, a[..], k);
    }
  }

  lemma OnePassMore<T>(less: (T, T) -> bool, was: seq<T>, mid: seq<T>, now: seq<T>, k: nat)
    requires 0 < k < |was| && PassDone(less, was, mid, 0, k) && AllMerged(less, mid, now, 2 * k)
    ensures AllMerged(less, was, now, k)
  {
    WholePass(less, was, mid, k);
  }

  lemma WholePass<T>(less: (T, T) -> bool, was: seq<T>, now: seq<T>, k: nat)
    requires PassDone(less, was, now, 0, k)
    ensures now == MergePass(less, was, k)
  {
    assert was[0..] == was;
  }

  method SortArray<T>(less: (T, T) -> bool, a: array<T>)
    modifies a
    ensures a[..] == Sort(less, old(a[..]))
  {
    SortBlocksInPlace(less, a);
    MergeAllInPlace(less, a, BLOCK);
  }
}
