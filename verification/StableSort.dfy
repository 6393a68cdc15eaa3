/** The stable sort of Go's standard library, for any comparison: blocks of 20 elements are sorted
    by insertion, and then neighbours are merged (SymMerge, by Kim and Kutzner). */
module StableSort {

  // ----- Insertion -----

  /** Moves x left past everything it has to come before. */
  function Insert<T>(less: (T, T) -> bool, s: seq<T>, x: T): (r: seq<T>)
    ensures |r| == |s| + 1
  {
    if s == [] || !less(x, s[|s| - 1]) then s + [x]
    else Insert(less, s[..|s| - 1], x) + [s[|s| - 1]]
  }

  function InsertionSort<T>(less: (T, T) -> bool, s: seq<T>): (r: seq<T>)
    ensures |r| == |s|
  {
    if s == [] then []
    else Insert(less, InsertionSort(less, s[..|s| - 1]), s[|s| - 1])
  }

  const BLOCK: nat := 20

  function SortBlocks<T>(less: (T, T) -> bool, s: seq<T>): (r: seq<T>)
    ensures |r| == |s|
  {
    if |s| <= BLOCK then InsertionSort(less, s)
    else InsertionSort(less, s[..BLOCK]) + SortBlocks(less, s[BLOCK..])
  }

  // ----- Binary search, which trusts its question to have a turning point -----

  /** What a search asks of the element at some place: does it come before x, may x come before
      it, may it stay before the element mirrored at p / 2? */
  datatype Question<T> = Before(x: T) | NotAfter(x: T) | NotAfterMirror(p: nat)

  predicate Yes<T>(less: (T, T) -> bool, s: seq<T>, q: Question<T>, h: nat)
    requires h < |s|
  {
    match q
    case Before(x) => less(s[h], x)
    case NotAfter(x) => !less(x, s[h])
    case NotAfterMirror(p) => h <= p && p - h < |s| && !less(s[p - h], s[h])
  }

  /** The first place from i on, but before j, whose answer is no. */
  function Search<T>(less: (T, T) -> bool, s: seq<T>, q: Question<T>, i: nat, j: nat): (r: nat)
    requires i <= j <= |s|
    ensures i <= r <= j
    decreases j - i
  {
    if i == j then i
    else
      var h := (i + j) / 2;
      if Yes(less, s, q, h) then Search(less, s, q, h + 1, j) else Search(less, s, q, i, h)
  }

  // ----- Merging -----

  /** How many of the first m among n elements stay in the first half at least, and at most. */
  function FewestStay(n: nat, m: nat): nat {
    if n / 2 + m > n then n / 2 + m - n else 0
  }

  function MostStay(n: nat, m: nat): nat {
    if m > n / 2 then n / 2 else m
  }

  /** How many elements of s[..m] stay in the first half of s. */
  function SplitPoint<T>(less: (T, T) -> bool, s: seq<T>, m: nat): (start: nat)
    requires 0 < m < |s|
    ensures start <= |s| / 2 && start <= m && m <= |s| / 2 + m - start <= |s|
  {
    Search(less, s, NotAfterMirror(|s| / 2 + m - 1), FewestStay(|s|, m), MostStay(|s|, m))
  }

  /** s with s[start..m] and s[m..end] exchanged. */
  function Rotated<T>(s: seq<T>, start: nat, m: nat, end: nat): (r: seq<T>)
    requires start <= m <= end <= |s|
    ensures |r| == |s|
  {
    s[..start] + s[m..end] + s[start..m] + s[end..]
  }

  function FirstMoved<T>(s: seq<T>, i: nat): (r: seq<T>)
    requires 1 <= i <= |s|
    ensures |r| == |s|
  {
    s[1..i] + [s[0]] + s[i..]
  }

  function LastMoved<T>(s: seq<T>, i: nat): (r: seq<T>)
    requires i < |s|
    ensures |r| == |s|
  {
    s[..i] + [s[|s| - 1]] + s[i..|s| - 1]
  }

  /** s with the elements of both parts exchanged that belong into the other half. */
  function Exchanged<T>(s: seq<T>, m: nat, start: nat): (r: seq<T>)
    requires start <= m <= |s| / 2 + m - start <= |s|
    ensures |r| == |s|
  {
    Rotated(s, start, m, |s| / 2 + m - start)
  }

  /** Merges s[..m] and s[m..]. */
  function SymMerge<T>(less: (T, T) -> bool, s: seq<T>, m: nat): (r: seq<T>)
    requires 0 < m < |s|
    ensures |r| == |s|
    decreases |s|, 1
  {
    if m == 1 then FirstMoved(s, Search(less, s, Before(s[0]), 1, |s|))
    else if |s| - m == 1 then LastMoved(s, Search(less, s, NotAfter(s[m]), 0, m))
    else
      var start := SplitPoint(less, s, m);
      MergeHalves(less, Exchanged(s, m, start), start, m - start)
  }

  function MergeHalves<T>(less: (T, T) -> bool, t: seq<T>, k: nat, l: nat): (r: seq<T>)
    requires 1 < |t|
    ensures |r| == |t|
    decreases |t|, 0
  {
    var mid := |t| / 2;
    MergeParts(less, t[..mid], k) + MergeParts(less, t[mid..], l)
  }

  /** Nothing is done if one of the parts is empty. */
  function MergeParts<T>(less: (T, T) -> bool, s: seq<T>, m: nat): (r: seq<T>)
    ensures |r| == |s|
    decreases |s|, 2
  {
    if 0 < m < |s| then SymMerge(less, s, m) else s
  }

  /** Merges neighbouring blocks of k elements. */
  function MergePass<T>(less: (T, T) -> bool, s: seq<T>, k: nat): (r: seq<T>)
    requires k > 0
    ensures |r| == |s|
    decreases |s|
  {
    if |s| <= k then s
    else if |s| <= 2 * k then SymMerge(less, s, k)
    else SymMerge(less, s[..2 * k], k) + MergePass(less, s[2 * k..], k)
  }

  function MergeAll<T>(less: (T, T) -> bool, s: seq<T>, k: nat): (r: seq<T>)
    requires k > 0
    ensures |r| == |s|
    decreases |s| - k
  {
    if |s| <= k then s else MergeAll(less, MergePass(less, s, k), 2 * k)
  }

  function Sort<T>(less: (T, T) -> bool, s: seq<T>): (r: seq<T>)
    ensures |r| == |s|
  {
    MergeAll(less, SortBlocks(less, s), BLOCK)
  }

  // ----- Whatever the comparison, the result is a permutation -----

  lemma {:induction false} InsertPermutes<T>(less: (T, T) -> bool, s: seq<T>, x: T)
    ensures multiset(Insert(less, s, x)) == multiset(s) + multiset{x}
  {
    if s != [] {
      InsertPermutes(less, s[..|s| - 1], x);
      assert s == s[..|s| - 1] + [s[|s| - 1]];
    }
  }

  lemma {:induction false} InsertionPermutes<T>(less: (T, T) -> bool, s: seq<T>)
    ensures multiset(InsertionSort(less, s)) == multiset(s)
  {
    if s != [] {
      InsertionPermutes(less, s[..|s| - 1]);
      InsertPermutes(less, InsertionSort(less, s[..|s| - 1]), s[|s| - 1]);
      assert s == s[..|s| - 1] + [s[|s| - 1]];
    }
  }

  lemma JoinPermutes<T>(s: seq<T>, k: nat, l: seq<T>, r: seq<T>)
    requires k <= |s| && multiset(l) == multiset(s[..k]) && multiset(r) == multiset(s[k..])
    ensures multiset(l + r) == multiset(s)
  {
    assert s == s[..k] + s[k..];
  }

  lemma {:induction false} SortBlocksPermutes<T>(less: (T, T) -> bool, s: seq<T>)
    ensures multiset(SortBlocks(less, s)) == multiset(s)
  {
    if |s| <= BLOCK {
      InsertionPermutes(less, s);
    } else {
      InsertionPermutes(less, s[..BLOCK]);
      SortBlocksPermutes(less, s[BLOCK..]);
      JoinPermutes(s, BLOCK, InsertionSort(less, s[..BLOCK]), SortBlocks(less, s[BLOCK..]));
    }
  }

  lemma MovesPermute<T>(s: seq<T>)
    ensures forall i | 1 <= i <= |s| :: multiset(FirstMoved(s, i)) == multiset(s)
    ensures forall i | 0 <= i < |s| :: multiset(LastMoved(s, i)) == multiset(s)
  {
    forall i | 1 <= i <= |s|
      ensures multiset(FirstMoved(s, i)) == multiset(s)
    {
      assert s == [s[0]] + s[1..i] + s[i..];
    }
    forall i | 0 <= i < |s|
      ensures multiset(LastMoved(s, i)) == multiset(s)
    {
      assert s == s[..i] + s[i..|s| - 1] + [s[|s| - 1]];
    }
  }

  lemma ExchangePermutes<T>(s: seq<T>, m: nat, start: nat)
    requires start <= m <= |s| / 2 + m - start <= |s|
    ensures multiset(Exchanged(s, m, start)) == multiset(s)
  {
    var end := |s| / 2 + m - start;
    assert s == s[..start] + s[start..m] + s[m..end] + s[end..];
  }

  lemma {:induction false} MergePermutes<T>(less: (T, T) -> bool, s: seq<T>, m: nat)
    requires 0 < m < |s|
    ensures multiset(SymMerge(less, s, m)) == multiset(s)
    decreases |s|, 1
  {
    if m == 1 || |s| - m == 1 {
      MovesPermute(s);
    } else {
      var start := SplitPoint(less, s, m);
      ExchangePermutes(s, m, start);
      HalvesPermute(less, Exchanged(s, m, start), start, m - start);
    }
  }

  lemma {:induction false} HalvesPermute<T>(less: (T, T) -> bool, t: seq<T>, k: nat, l: nat)
    requires 1 < |t|
    ensures multiset(MergeHalves(less, t, k, l)) == multiset(t)
    decreases |t|, 0
  {
    var mid := |t| / 2;
    PartsPermute(less, t[..mid], k);
    PartsPermute(less, t[mid..], l);
    JoinPermutes(t, mid, MergeParts(less, t[..mid], k), MergeParts(less, t[mid..], l));
  }

  lemma {:induction false} PartsPermute<T>(less: (T, T) -> bool, s: seq<T>, m: nat)
    ensures multiset(MergeParts(less, s, m)) == multiset(s)
    decreases |s|, 2
  {
    if 0 < m < |s| {
      MergePermutes(less, s, m);
    }
  }

  lemma {:induction false} PassPermutes<T>(less: (T, T) -> bool, s: seq<T>, k: nat)
    requires k > 0
    ensures multiset(MergePass(less, s, k)) == multiset(s)
    decreases |s|
  {
    if k < |s| <= 2 * k {
      MergePermutes(less, s, k);
    } else if |s| > 2 * k {
      MergePermutes(less, s[..2 * k], k);
      PassPermutes(less, s[2 * k..], k);
      JoinPermutes(s, 2 * k, SymMerge(less, s[..2 * k], k), MergePass(less, s[2 * k..], k));
    }
  }

  lemma {:induction false} MergeAllPermutes<T>(less: (T, T) -> bool, s: seq<T>, k: nat)
    requires k > 0
    ensures multiset(MergeAll(less, s, k)) == multiset(s)
    decreases |s| - k
  {
    if |s| > k {
      PassPermutes(less, s, k);
      MergeAllPermutes(less, MergePass(less, s, k), 2 * k);
    }
  }

  lemma SortPermutes<T>(less: (T, T) -> bool, s: seq<T>)
    ensures multiset(Sort(less, s)) == multiset(s)
  {
    SortBlocksPermutes(less, s);
    MergeAllPermutes(less, SortBlocks(less, s), BLOCK);
  }

  // ----- With a strict order, the merge sorts -----

  // The elements are numbered, and an order on the numbers says what should come first.

  type Order = (nat, nat) -> bool

  ghost predicate StrictOrder(lt: Order, n: nat) {
    && (forall i, j | 0 <= i < n && 0 <= j < n && i != j :: lt(i, j) <==> !lt(j, i))
    && (forall i, j, k | 0 <= i < n && 0 <= j < n && 0 <= k < n && lt(i, j) && lt(j, k) :: lt(i, k))
  }

  ghost predicate Below(u: seq<nat>, n: nat) {
    forall i | 0 <= i < |u| :: u[i] < n
  }

  ghost predicate Ascending(lt: Order, u: seq<nat>) {
    forall i, j | 0 <= i < j < |u| :: lt(u[i], u[j])
  }

  /** All of u[m..] come from further back in the original list than all of u[..m]. */
  ghost predicate Later(u: seq<nat>, m: nat) {
    forall i, j | 0 <= i < m <= j < |u| :: u[i] < u[j]
  }

  /** After a no there is no yes. */
  ghost predicate TurnsOnce<T>(less: (T, T) -> bool, s: seq<T>, q: Question<T>, i: nat, j: nat)
    requires j <= |s|
  {
    forall g, h | i <= g < h < j && Yes(less, s, q, h) :: Yes(less, s, q, g)
  }

  lemma {:induction false} SearchSplits<T>(less: (T, T) -> bool, s: seq<T>, q: Question<T>, i: nat, j: nat)
    requires i <= j <= |s| && TurnsOnce(less, s, q, i, j)
    ensures forall h | i <= h < j :: Yes(less, s, q, h) <==> h < Search(less, s, q, i, j)
    decreases j - i
  {
    if i < j {
      var h := (i + j) / 2;
      if Yes(less, s, q, h) {
        SearchSplits(less, s, q, h + 1, j);
      } else {
        SearchSplits(less, s, q, i, h);
      }
    }
  }

  /** Two ascending runs, the second from further back. */
  ghost predicate TwoRuns(lt: Order, n: nat, u: seq<nat>, m: nat) {
    && m <= |u| && StrictOrder(lt, n) && Below(u, n) && Later(u, m)
    && Ascending(lt, u[..m]) && Ascending(lt, u[m..])
  }

  /** Runs by position. */
  lemma RunsAt(lt: Order, n: nat, u: seq<nat>, m: nat)
    requires TwoRuns(lt, n, u, m)
    ensures forall i, j | 0 <= i < j < m :: lt(u[i], u[j])
    ensures forall i, j | m <= i < j < |u| :: lt(u[i], u[j])
    ensures forall i, j | 0 <= i < m <= j < |u| :: lt(u[i], u[j]) <==> !lt(u[j], u[i])
  {
    assert forall i | 0 <= i < m :: u[..m][i] == u[i];
    forall i, j | m <= i < j < |u|
      ensures lt(u[i], u[j])
    {
      assert u[m..][i - m] == u[i] && u[m..][j - m] == u[j];
    }
  }

  lemma InsertsFirst(lt: Order, n: nat, u: seq<nat>)
    requires TwoRuns(lt, n, u, 1) && 1 < |u|
    ensures Ascending(lt, FirstMoved(u, Search(lt, u, Before(u[0]), 1, |u|)))
  {
    RunsAt(lt, n, u, 1);
    var q := Before(u[0]);
    forall g, h | 1 <= g < h < |u| && Yes(lt, u, q, h)
      ensures Yes(lt, u, q, g)
    {
      assert lt(u[g], u[h]);
    }
    SearchSplits(lt, u, q, 1, |u|);
    FirstInPlace(lt, u, Search(lt, u, q, 1, |u|));
  }

  lemma FirstInPlace(lt: Order, u: seq<nat>, i: nat)
    requires 1 <= i <= |u| && forall g, h | 1 <= g < h < |u| :: lt(u[g], u[h])
    requires forall h | 1 <= h < |u| :: lt(u[h], u[0]) <==> !lt(u[0], u[h])
    requires forall h | 1 <= h < |u| :: Yes(lt, u, Before(u[0]), h) <==> h < i
    ensures Ascending(lt, FirstMoved(u, i))
  {
    var r := FirstMoved(u, i);
    forall g, h | 0 <= g < h < |r|
      ensures lt(r[g], r[h])
    {
      assert r[g] == u[if g < i - 1 then g + 1 else if g == i - 1 then 0 else g];
      assert r[h] == u[if h < i - 1 then h + 1 else if h == i - 1 then 0 else h];
      assert h == i - 1 ==> Yes(lt, u, Before(u[0]), g + 1);
      assert g == i - 1 ==> !Yes(lt, u, Before(u[0]), h);
    }
  }

  lemma InsertsLast(lt: Order, n: nat, u: seq<nat>)
    requires 1 < |u| && TwoRuns(lt, n, u, |u| - 1)
    ensures Ascending(lt, LastMoved(u, Search(lt, u, NotAfter(u[|u| - 1]), 0, |u| - 1)))
  {
    var m := |u| - 1;
    RunsAt(lt, n, u, m);
    var q := NotAfter(u[m]);
    forall g, h | 0 <= g < h < m && Yes(lt, u, q, h)
      ensures Yes(lt, u, q, g)
    {
      assert lt(u[g], u[h]);
    }
    SearchSplits(lt, u, q, 0, m);
    assert forall h | 0 <= h < m :: Yes(lt, u, q, h) == !lt(u[m], u[h]);
    LastInPlace(lt, u, Search(lt, u, q, 0, m));
  }

  lemma LastInPlace(lt: Order, u: seq<nat>, i: nat)
    requires i < |u| && forall g, h | 0 <= g < h < |u| - 1 :: lt(u[g], u[h])
    requires forall h | 0 <= h < |u| - 1 :: lt(u[h], u[|u| - 1]) <==> !lt(u[|u| - 1], u[h])
    requires forall h | 0 <= h < |u| - 1 :: (!lt(u[|u| - 1], u[h])) <==> h < i
    ensures Ascending(lt, LastMoved(u, i))
  {
    var m, r := |u| - 1, LastMoved(u, i);
    forall g, h | 0 <= g < h < |r|
      ensures lt(r[g], r[h])
    {
      assert r[g] == u[if g < i then g else if g == i then m else g - 1];
      assert r[h] == u[if h < i then h else if h == i then m else h - 1];
      assert h == i ==> !lt(u[m], u[g]);
      assert g == i ==> lt(u[m], u[h - 1]);
    }
  }

  ghost predicate Splits(lt: Order, u: seq<nat>, m: nat, start: nat, end: nat)
    requires start <= m <= end <= |u|
  {
    && (forall g, h | 0 <= g < start && end <= h < |u| :: lt(u[g], u[h]))
    && (forall g, h | start <= g < m && m <= h < end :: lt(u[h], u[g]))
  }

  /** What the split point promises: what is left before it has to come before what is left after
      it in the second part, and what is exchanged the other way round. */
  lemma SplitPointSplits(lt: Order, n: nat, u: seq<nat>, m: nat)
    requires TwoRuns(lt, n, u, m) && 0 < m < |u|
    ensures Splits(lt, u, m, SplitPoint(lt, u, m), |u| / 2 + m - SplitPoint(lt, u, m))
  {
    SplitPointAnswers(lt, n, u, m, |u| / 2 + m - 1);
    AtSplit(lt, n, u, m, |u| / 2 + m - 1, SplitPoint(lt, u, m));
  }

  lemma SplitPointAnswers(lt: Order, n: nat, u: seq<nat>, m: nat, p: nat)
    requires TwoRuns(lt, n, u, m) && 0 < m < |u| && p == |u| / 2 + m - 1
    ensures FewestStay(|u|, m) <= SplitPoint(lt, u, m) <= MostStay(|u|, m)
    ensures forall h | FewestStay(|u|, m) <= h < MostStay(|u|, m) ::
      Yes(lt, u, NotAfterMirror(p), h) <==> h < SplitPoint(lt, u, m)
  {
    MirrorTurnsOnce(lt, n, u, m, p, FewestStay(|u|, m), MostStay(|u|, m));
    SearchSplits(lt, u, NotAfterMirror(p), FewestStay(|u|, m), MostStay(|u|, m));
  }

  lemma AtSplit(lt: Order, n: nat, u: seq<nat>, m: nat, p: nat, start: nat)
    requires TwoRuns(lt, n, u, m) && 0 < m < |u| && p == |u| / 2 + m - 1
    requires FewestStay(|u|, m) <= start <= MostStay(|u|, m)
    requires forall h | FewestStay(|u|, m) <= h < MostStay(|u|, m) ::
      Yes(lt, u, NotAfterMirror(p), h) <==> h < start
    ensures Splits(lt, u, m, start, p + 1 - start)
  {
    var end := p + 1 - start;
    RunsAt(lt, n, u, m);
    if start > 0 && end < |u| {
      assert Yes(lt, u, NotAfterMirror(p), start - 1);
    }
    if start < m && m < end {
      assert !Yes(lt, u, NotAfterMirror(p), start);
    }
    AroundSplit(lt, n, u, m, start, end);
  }

  lemma AroundSplit(lt: Order, n: nat, u: seq<nat>, m: nat, start: nat, end: nat)
    requires TwoRuns(lt, n, u, m) && start <= m <= end <= |u|
    requires start > 0 && end < |u| ==> lt(u[start - 1], u[end])
    requires start < m && m < end ==> lt(u[end - 1], u[start])
    ensures Splits(lt, u, m, start, end)
  {
    RunsAt(lt, n, u, m);
    forall g, h | 0 <= g < start && end <= h < |u|
      ensures lt(u[g], u[h])
    {
      assert g == start - 1 || lt(u[g], u[start - 1]);
      assert h == end || lt(u[end], u[h]);
    }
    forall g, h | start <= g < m && m <= h < end
      ensures lt(u[h], u[g])
    {
      assert g == start || lt(u[start], u[g]);
      assert h == end - 1 || lt(u[h], u[end - 1]);
    }
  }

  lemma MirrorTurnsOnce(lt: Order, n: nat, u: seq<nat>, m: nat, p: nat, i: nat, j: nat)
    requires TwoRuns(lt, n, u, m) && i <= j <= m && m + j <= p + 1 && p < |u| + i
    ensures TurnsOnce(lt, u, NotAfterMirror(p), i, j)
  {
    forall g, h | i <= g < h < j && Yes(lt, u, NotAfterMirror(p), h)
      ensures Yes(lt, u, NotAfterMirror(p), g)
    {
      MirrorMonotone(lt, n, u, m, p, g, h);
    }
  }

  lemma MirrorMonotone(lt: Order, n: nat, u: seq<nat>, m: nat, p: nat, g: nat, h: nat)
    requires TwoRuns(lt, n, u, m) && g < h < m <= p - h && p - g < |u| && !lt(u[p - h], u[h])
    ensures !lt(u[p - g], u[g])
  {
    RunsAt(lt, n, u, m);
    assert lt(u[g], u[h]) && lt(u[h], u[p - h]) && lt(u[p - h], u[p - g]);
  }

  ghost predicate AllBefore(lt: Order, a: seq<nat>, b: seq<nat>) {
    forall x, y | x in a && y in b :: lt(x, y)
  }

  lemma JoinAscending(lt: Order, a: seq<nat>, b: seq<nat>, l: seq<nat>, r: seq<nat>)
    requires multiset(l) == multiset(a) && multiset(r) == multiset(b) && Ascending(lt, l) && Ascending(lt, r)
    requires AllBefore(lt, a, b)
    ensures Ascending(lt, l + r)
  {
    forall i, j | 0 <= i < |l| && 0 <= j < |r|
      ensures lt(l[i], r[j])
    {
      assert l[i] in multiset(a) && r[j] in multiset(b);
    }
  }

  /** The two halves after the exchange. */
  lemma HalvesOfExchanged<T>(u: seq<T>, m: nat, start: nat)
    requires start <= m <= |u| / 2 + m - start <= |u|
    ensures var end, t := |u| / 2 + m - start, Exchanged(u, m, start);
      t[..|u| / 2] == u[0..start] + u[m..end] && t[|u| / 2..] == u[start..m] + u[end..|u|]
  {
  }

  lemma RunsOfHalf(lt: Order, n: nat, u: seq<nat>, m: nat, a: nat, b: nat, c: nat, d: nat)
    requires TwoRuns(lt, n, u, m) && a <= b <= m <= c <= d <= |u|
    ensures TwoRuns(lt, n, u[a..b] + u[c..d], b - a)
  {
    var h := u[a..b] + u[c..d];
    RunsAt(lt, n, u, m);
    assert h[..b - a] == u[a..b] && h[b - a..] == u[c..d];
  }

  lemma HalvesInOrder(lt: Order, n: nat, u: seq<nat>, m: nat, start: nat, end: nat)
    requires TwoRuns(lt, n, u, m) && start <= m <= end <= |u| && Splits(lt, u, m, start, end)
    ensures AllBefore(lt, u[0..start] + u[m..end], u[start..m] + u[end..|u|])
  {
    RunsAt(lt, n, u, m);
    forall x, y | x in u[0..start] + u[m..end] && y in u[start..m] + u[end..|u|]
      ensures lt(x, y)
    {
      var g :| 0 <= g < |u| && (g < start || m <= g < end) && x == u[g];
      var h :| 0 <= h < |u| && (start <= h < m || end <= h) && y == u[h];
    }
  }

  lemma {:induction false} MergeSorts(lt: Order, n: nat, u: seq<nat>, m: nat)
    requires TwoRuns(lt, n, u, m) && 0 < m < |u|
    ensures Ascending(lt, SymMerge(lt, u, m))
    decreases |u|, 1
  {
    if m == 1 {
      InsertsFirst(lt, n, u);
    } else if |u| - m == 1 {
      InsertsLast(lt, n, u);
    } else {
      SplitPointSplits(lt, n, u, m);
      ExchangeSplits(lt, n, u, m, SplitPoint(lt, u, m));
      MergeHalvesSorts(lt, n, Exchanged(u, m, SplitPoint(lt, u, m)), SplitPoint(lt, u, m), m - SplitPoint(lt, u, m));
    }
  }

  lemma ExchangeSplits(lt: Order, n: nat, u: seq<nat>, m: nat, start: nat)
    requires 1 < |u| && TwoRuns(lt, n, u, m) && start <= m <= |u| / 2 + m - start <= |u|
    requires Splits(lt, u, m, start, |u| / 2 + m - start)
    ensures HalvesReady(lt, n, Exchanged(u, m, start), start, m - start)
  {
    var end := |u| / 2 + m - start;
    HalvesOfExchanged(u, m, start);
    ExchangedRuns(lt, n, u, m, start, end, u[0..start] + u[m..end], u[start..m] + u[end..|u|]);
  }

  lemma ExchangedRuns(lt: Order, n: nat, u: seq<nat>, m: nat, start: nat, end: nat, a: seq<nat>, b: seq<nat>)
    requires TwoRuns(lt, n, u, m) && start <= m <= end <= |u| && Splits(lt, u, m, start, end)
    requires a == u[0..start] + u[m..end] && b == u[start..m] + u[end..|u|]
    ensures TwoRuns(lt, n, a, start) && TwoRuns(lt, n, b, m - start) && AllBefore(lt, a, b)
  {
    RunsOfHalf(lt, n, u, m, 0, start, m, end);
    RunsOfHalf(lt, n, u, m, start, m, end, |u|);
    HalvesInOrder(lt, n, u, m, start, end);
  }

  /** All of the first half has to come before all of the second, and each half is two runs. */
  ghost predicate HalvesReady(lt: Order, n: nat, t: seq<nat>, k: nat, l: nat) {
    && TwoRuns(lt, n, t[..|t| / 2], k) && TwoRuns(lt, n, t[|t| / 2..], l)
    && AllBefore(lt, t[..|t| / 2], t[|t| / 2..])
  }

  lemma {:induction false} MergeHalvesSorts(lt: Order, n: nat, t: seq<nat>, k: nat, l: nat)
    requires 1 < |t| && HalvesReady(lt, n, t, k, l)
    ensures Ascending(lt, MergeHalves(lt, t, k, l))
    decreases |t|, 0
  {
    var a, b := t[..|t| / 2], t[|t| / 2..];
    MergePartsSorts(lt, n, a, k);
    MergePartsSorts(lt, n, b, l);
    PartsPermute(lt, a, k);
    PartsPermute(lt, b, l);
    JoinAscending(lt, a, b, MergeParts(lt, a, k), MergeParts(lt, b, l));
  }

  lemma {:induction false} MergePartsSorts(lt: Order, n: nat, u: seq<nat>, m: nat)
    requires TwoRuns(lt, n, u, m)
    ensures Ascending(lt, MergeParts(lt, u, m))
    decreases |u|, 2
  {
    if 0 < m < |u| {
      MergeSorts(lt, n, u, m);
    } else {
      assert u[..m] == u || u[m..] == u;
    }
  }

  /** Ascending blocks of k elements, each from further back than the ones before it. */
  ghost predicate Blocks(lt: Order, u: seq<nat>, k: nat)
    requires k > 0
    decreases |u|
  {
    if |u| <= k then Ascending(lt, u)
    else Ascending(lt, u[..k]) && Later(u, k) && Blocks(lt, u[k..], k)
  }

  lemma {:induction false} PassSorts(lt: Order, n: nat, u: seq<nat>, k: nat)
    requires k > 0 && StrictOrder(lt, n) && Below(u, n) && Blocks(lt, u, k)
    ensures Blocks(lt, MergePass(lt, u, k), 2 * k) && Below(MergePass(lt, u, k), n)
    decreases |u|
  {
    if k < |u| <= 2 * k {
      PairSorts(lt, n, u, k);
    } else if |u| > 2 * k {
      FirstPair(lt, u, k);
      PairSorts(lt, n, u[..2 * k], k);
      PassSorts(lt, n, u[2 * k..], k);
      MergePermutes(lt, u[..2 * k], k);
      PassPermutes(lt, u[2 * k..], k);
      JoinBlocks(lt, n, u, SymMerge(lt, u[..2 * k], k), MergePass(lt, u[2 * k..], k), 2 * k);
    }
  }

  lemma PairSorts(lt: Order, n: nat, u: seq<nat>, k: nat)
    requires 0 < k < |u| <= 2 * k && StrictOrder(lt, n) && Below(u, n) && Blocks(lt, u, k)
    ensures Ascending(lt, SymMerge(lt, u, k)) && Below(SymMerge(lt, u, k), n)
  {
    MergeSorts(lt, n, u, k);
    MergePermutes(lt, u, k);
    SameBelow(u, SymMerge(lt, u, k), n);
  }

  lemma SameBelow(u: seq<nat>, r: seq<nat>, n: nat)
    requires multiset(r) == multiset(u) && Below(u, n)
    ensures Below(r, n)
  {
    forall i | 0 <= i < |r|
      ensures r[i] < n
    {
      assert r[i] in multiset(u);
    }
  }

  lemma FirstPair(lt: Order, u: seq<nat>, k: nat)
    requires 0 < k && 2 * k < |u| && Blocks(lt, u, k)
    ensures Blocks(lt, u[..2 * k], k) && Blocks(lt, u[2 * k..], k) && Later(u, 2 * k)
  {
    var v := u[k..];
    assert u[..2 * k][..k] == u[..k] && u[..2 * k][k..] == v[..k] && v[k..] == u[2 * k..];
    forall i, j | 0 <= i < 2 * k <= j < |u|
      ensures u[i] < u[j]
    {
      assert i >= k ==> v[i - k] < v[j - k];
    }
  }

  lemma JoinBlocks(lt: Order, n: nat, u: seq<nat>, l: seq<nat>, r: seq<nat>, k: nat)
    requires 0 < k < |u| && Later(u, k) && multiset(l) == multiset(u[..k]) && multiset(r) == multiset(u[k..])
    requires Ascending(lt, l) && Below(l, n) && Blocks(lt, r, k) && Below(r, n)
    ensures Blocks(lt, l + r, k) && Below(l + r, n)
  {
    assert |multiset(l)| == |l| && |multiset(u[..k])| == k;
    assert (l + r)[..k] == l && (l + r)[k..] == r;
    forall i, j | 0 <= i < k <= j < |l + r|
      ensures (l + r)[i] < (l + r)[j]
    {
      assert l[i] in multiset(u[..k]) && r[j - k] in multiset(u[k..]);
    }
  }

  lemma {:induction false} MergeAllSorts(lt: Order, n: nat, u: seq<nat>, k: nat)
    requires k > 0 && StrictOrder(lt, n) && Below(u, n) && Blocks(lt, u, k)
    ensures Ascending(lt, MergeAll(lt, u, k))
    decreases |u| - k
  {
    if |u| > k {
      PassSorts(lt, n, u, k);
      MergeAllSorts(lt, n, MergePass(lt, u, k), 2 * k);
    }
  }

  /** Numbers in the order of the original list. */
  ghost predicate Increasing(u: seq<nat>) {
    forall i, j | 0 <= i < j < |u| :: u[i] < u[j]
  }

  lemma {:induction false} InsertSorts(lt: Order, n: nat, u: seq<nat>, x: nat)
    requires StrictOrder(lt, n) && Below(u, n) && x < n && x !in u && Ascending(lt, u)
    ensures Ascending(lt, Insert(lt, u, x))
  {
    if u != [] {
      var last := u[|u| - 1];
      if lt(x, last) {
        InsertSorts(lt, n, u[..|u| - 1], x);
        InsertPermutes(lt, u[..|u| - 1], x);
        var r := Insert(lt, u[..|u| - 1], x);
        forall i | 0 <= i < |r|
          ensures lt(r[i], last)
        {
          assert r[i] in multiset(u[..|u| - 1]) + multiset{x};
        }
      } else {
        assert lt(last, x);
      }
    }
  }

  lemma {:induction false} InsertionSorts(lt: Order, n: nat, u: seq<nat>)
    requires StrictOrder(lt, n) && Below(u, n) && Increasing(u)
    ensures Ascending(lt, InsertionSort(lt, u))
  {
    if u != [] {
      var v := u[..|u| - 1];
      InsertionSorts(lt, n, v);
      InsertionPermutes(lt, v);
      SameBelow(v, InsertionSort(lt, v), n);
      assert forall y | y in InsertionSort(lt, v) :: y in multiset(v);
      InsertSorts(lt, n, InsertionSort(lt, v), u[|u| - 1]);
    }
  }

  lemma {:induction false} SortBlocksSorts(lt: Order, n: nat, u: seq<nat>)
    requires StrictOrder(lt, n) && Below(u, n) && Increasing(u)
    ensures Blocks(lt, SortBlocks(lt, u), BLOCK) && Below(SortBlocks(lt, u), n)
  {
    if |u| <= BLOCK {
      InsertionSorts(lt, n, u);
      InsertionPermutes(lt, u);
      SameBelow(u, InsertionSort(lt, u), n);
    } else {
      var a, b := u[..BLOCK], u[BLOCK..];
      InsertionSorts(lt, n, a);
      SortBlocksSorts(lt, n, b);
      InsertionPermutes(lt, a);
      SortBlocksPermutes(lt, b);
      SameBelow(a, InsertionSort(lt, a), n);
      JoinBlocks(lt, n, u, InsertionSort(lt, a), SortBlocks(lt, b), BLOCK);
    }
  }

  lemma SortSorts(lt: Order, n: nat, u: seq<nat>)
    requires StrictOrder(lt, n) && Below(u, n) && Increasing(u)
    ensures Ascending(lt, Sort(lt, u))
  {
    SortBlocksSorts(lt, n, u);
    MergeAllSorts(lt, n, SortBlocks(lt, u), BLOCK);
  }

  lemma WithoutFirst<T>(u: seq<T>)
    requires u != []
    ensures u == [u[0]] + u[1..] && multiset(u[1..]) == multiset(u) - multiset{u[0]}
  {
    assert u == [u[0]] + u[1..];
  }

  lemma SameFirst(lt: Order, n: nat, u: seq<nat>, v: seq<nat>)
    requires StrictOrder(lt, n) && Below(u, n) && Ascending(lt, u) && Ascending(lt, v)
    requires multiset(u) == multiset(v) && u != [] && v != []
    ensures u[0] == v[0]
  {
    assert u[0] in multiset(v) && v[0] in multiset(u);
    var i :| 0 <= i < |v| && v[i] == u[0];
    var j :| 0 <= j < |u| && u[j] == v[0];
  }

  lemma {:induction false} AscendingUnique(lt: Order, n: nat, u: seq<nat>, v: seq<nat>)
    requires StrictOrder(lt, n) && Below(u, n) && Ascending(lt, u) && Ascending(lt, v)
    requires multiset(u) == multiset(v)
    ensures u == v
  {
    assert |multiset(u)| == |u| && |multiset(v)| == |v|;
    if u != [] {
      SameFirst(lt, n, u, v);
      WithoutFirst(u);
      WithoutFirst(v);
      AscendingUnique(lt, n, u[1..], v[1..]);
    }
  }

  // ----- The sort of a list follows the sort of the numbers of its elements -----

  /** The comparison of a later element with an earlier one is what the order says. */
  ghost predicate Agree<T(!new)>(less: (T, T) -> bool, lt: Order, name: nat -> T) {
    forall i: nat, j: nat | j < i :: lt(i, j) <==> less(name(i), name(j))
  }

  function Named<T>(name: nat -> T, u: seq<nat>): (r: seq<T>)
    ensures |r| == |u| && forall i | 0 <= i < |u| :: r[i] == name(u[i])
  {
    seq(|u|, i requires 0 <= i < |u| => name(u[i]))
  }

  lemma NamedParts<T>(name: nat -> T, u: seq<nat>, i: nat)
    requires i <= |u|
    ensures Named(name, u[..i]) == Named(name, u)[..i] && Named(name, u[i..]) == Named(name, u)[i..]
  {
  }

  lemma NamedJoined<T>(name: nat -> T, u: seq<nat>, v: seq<nat>)
    ensures Named(name, u + v) == Named(name, u) + Named(name, v)
  {
  }

  lemma {:induction false} InsertNamed<T(!new)>(less: (T, T) -> bool, lt: Order, name: nat -> T, u: seq<nat>, x: nat)
    requires Agree(less, lt, name) && forall i | 0 <= i < |u| :: u[i] < x
    ensures Named(name, Insert(lt, u, x)) == Insert(less, Named(name, u), name(x))
  {
    if u != [] {
      InsertNamed(less, lt, name, u[..|u| - 1], x);
      NamedParts(name, u, |u| - 1);
    }
  }

  lemma {:induction false} InsertionNamed<T(!new)>(less: (T, T) -> bool, lt: Order, name: nat -> T, u: seq<nat>)
    requires Agree(less, lt, name) && Increasing(u)
    ensures Named(name, InsertionSort(lt, u)) == InsertionSort(less, Named(name, u))
  {
    if u != [] {
      var v, x := u[..|u| - 1], u[|u| - 1];
      InsertionNamed(less, lt, name, v);
      InsertionPermutes(lt, v);
      NamedParts(name, u, |u| - 1);
      SameBelow(v, InsertionSort(lt, v), x);
      InsertNamed(less, lt, name, InsertionSort(lt, v), x);
    }
  }

  lemma {:induction false} SortBlocksNamed<T(!new)>(less: (T, T) -> bool, lt: Order, name: nat -> T, u: seq<nat>)
    requires Agree(less, lt, name) && Increasing(u)
    ensures Named(name, SortBlocks(lt, u)) == SortBlocks(less, Named(name, u))
  {
    if |u| <= BLOCK {
      InsertionNamed(less, lt, name, u);
    } else {
      InsertionNamed(less, lt, name, u[..BLOCK]);
      SortBlocksNamed(less, lt, name, u[BLOCK..]);
      NamedParts(name, u, BLOCK);
      NamedJoined(name, InsertionSort(lt, u[..BLOCK]), SortBlocks(lt, u[BLOCK..]));
    }
  }

  lemma {:induction false} SearchAlike<S, T>(less: (S, S) -> bool, s: seq<S>, q: Question<S>,
                                             less': (T, T) -> bool, s': seq<T>, q': Question<T>, i: nat, j: nat)
    requires i <= j <= |s| == |s'|
    requires forall h | i <= h < j :: Yes(less, s, q, h) == Yes(less', s', q', h)
    ensures Search(less, s, q, i, j) == Search(less', s', q', i, j)
    decreases j - i
  {
    if i < j {
      var h := (i + j) / 2;
      if Yes(less, s, q, h) {
        SearchAlike(less, s, q, less', s', q', h + 1, j);
      } else {
        SearchAlike(less, s, q, less', s', q', i, h);
      }
    }
  }

  lemma SplitPointNamed<T(!new)>(less: (T, T) -> bool, lt: Order, name: nat -> T, u: seq<nat>, m: nat)
    requires Agree(less, lt, name) && Later(u, m) && 0 < m < |u|
    ensures SplitPoint(lt, u, m) == SplitPoint(less, Named(name, u), m)
  {
    var p, i, j := |u| / 2 + m - 1, FewestStay(|u|, m), MostStay(|u|, m);
    SearchAlike(lt, u, NotAfterMirror(p), less, Named(name, u), NotAfterMirror(p), i, j);
  }

  lemma MovedNamed<T>(name: nat -> T, u: seq<nat>, i: nat)
    requires i <= |u|
    ensures 1 <= i ==> Named(name, FirstMoved(u, i)) == FirstMoved(Named(name, u), i)
    ensures i < |u| ==> Named(name, LastMoved(u, i)) == LastMoved(Named(name, u), i)
  {
  }

  lemma FirstNamed<T(!new)>(less: (T, T) -> bool, lt: Order, name: nat -> T, u: seq<nat>)
    requires Agree(less, lt, name) && Later(u, 1) && 1 < |u|
    ensures Named(name, SymMerge(lt, u, 1)) == SymMerge(less, Named(name, u), 1)
  {
    var s := Named(name, u);
    SearchAlike(lt, u, Before(u[0]), less, s, Before(s[0]), 1, |u|);
    MovedNamed(name, u, Search(lt, u, Before(u[0]), 1, |u|));
  }

  lemma LastNamed<T(!new)>(less: (T, T) -> bool, lt: Order, name: nat -> T, u: seq<nat>, m: nat)
    requires Agree(less, lt, name) && Later(u, m) && 1 < m == |u| - 1
    ensures Named(name, SymMerge(lt, u, m)) == SymMerge(less, Named(name, u), m)
  {
    var s := Named(name, u);
    SearchAlike(lt, u, NotAfter(u[m]), less, s, NotAfter(s[m]), 0, m);
    MovedNamed(name, u, Search(lt, u, NotAfter(u[m]), 0, m));
  }

  lemma {:induction false} MergeNamed<T(!new)>(
    less: (T, T) -> bool, lt: Order, name: nat -> T, u: seq<nat>, m: nat)
    requires Agree(less, lt, name) && Later(u, m) && 0 < m < |u|
    ensures Named(name, SymMerge(lt, u, m)) == SymMerge(less, Named(name, u), m)
    decreases |u|, 1
  {
    if m == 1 {
      FirstNamed(less, lt, name, u);
    } else if |u| - m == 1 {
      LastNamed(less, lt, name, u, m);
    } else {
      SplitPointNamed(less, lt, name, u, m);
      ExchangedNamed(name, u, m, SplitPoint(lt, u, m));
      ExchangeKeepsLater(u, m, SplitPoint(lt, u, m));
      MergeHalvesNamed(less, lt, name, Exchanged(u, m, SplitPoint(lt, u, m)), SplitPoint(lt, u, m),
                       m - SplitPoint(lt, u, m));
    }
  }

  lemma ExchangedNamed<T>(name: nat -> T, u: seq<nat>, m: nat, start: nat)
    requires start <= m <= |u| / 2 + m - start <= |u|
    ensures Named(name, Exchanged(u, m, start)) == Exchanged(Named(name, u), m, start)
  {
  }

  lemma ExchangeKeepsLater(u: seq<nat>, m: nat, start: nat)
    requires start <= m <= |u| / 2 + m - start <= |u| && Later(u, m)
    ensures Later(Exchanged(u, m, start)[..|u| / 2], start)
    ensures Later(Exchanged(u, m, start)[|u| / 2..], m - start)
  {
    HalvesOfExchanged(u, m, start);
  }

  lemma {:induction false} MergeHalvesNamed<T(!new)>(
    less: (T, T) -> bool, lt: Order, name: nat -> T, t: seq<nat>, k: nat, l: nat)
    requires Agree(less, lt, name) && 1 < |t| && Later(t[..|t| / 2], k) && Later(t[|t| / 2..], l)
    ensures Named(name, MergeHalves(lt, t, k, l)) == MergeHalves(less, Named(name, t), k, l)
    decreases |t|, 0
  {
    MergePartsNamed(less, lt, name, t[..|t| / 2], k);
    MergePartsNamed(less, lt, name, t[|t| / 2..], l);
    NamedParts(name, t, |t| / 2);
  }

  lemma {:induction false} MergePartsNamed<T(!new)>(
    less: (T, T) -> bool, lt: Order, name: nat -> T, u: seq<nat>, m: nat)
    requires Agree(less, lt, name) && Later(u, m)
    ensures Named(name, MergeParts(lt, u, m)) == MergeParts(less, Named(name, u), m)
    decreases |u|, 2
  {
    if 0 < m < |u| {
      MergeNamed(less, lt, name, u, m);
    }
  }

  lemma {:induction false} PassNamed<T(!new)>(
    less: (T, T) -> bool, lt: Order, name: nat -> T, u: seq<nat>, k: nat)
    requires Agree(less, lt, name) && k > 0 && Blocks(lt, u, k)
    ensures Named(name, MergePass(lt, u, k)) == MergePass(less, Named(name, u), k)
    decreases |u|
  {
    if k < |u| <= 2 * k {
      MergeNamed(less, lt, name, u, k);
    } else if |u| > 2 * k {
      FirstPair(lt, u, k);
      MergeNamed(less, lt, name, u[..2 * k], k);
      PassNamed(less, lt, name, u[2 * k..], k);
      NamedParts(name, u, 2 * k);
      NamedJoined(name, SymMerge(lt, u[..2 * k], k), MergePass(lt, u[2 * k..], k));
    }
  }

  lemma {:induction false} MergeAllNamed<T(!new)>(
    less: (T, T) -> bool, lt: Order, n: nat, name: nat -> T, u: seq<nat>, k: nat)
    requires Agree(less, lt, name) && k > 0 && StrictOrder(lt, n) && Below(u, n) && Blocks(lt, u, k)
    ensures Named(name, MergeAll(lt, u, k)) == MergeAll(less, Named(name, u), k)
    decreases |u| - k
  {
    if |u| > k {
      PassNamed(less, lt, name, u, k);
      PassSorts(lt, n, u, k);
      MergeAllNamed(less, lt, n, name, MergePass(lt, u, k), 2 * k);
    }
  }

  /** If the comparison of later with earlier elements comes from a strict order, then the sort
      gives what insertion alone would give. */
  lemma SortIsInsertion<T(!new)>(less: (T, T) -> bool, lt: Order, n: nat, name: nat -> T, u: seq<nat>)
    requires Agree(less, lt, name) && StrictOrder(lt, n) && Below(u, n) && Increasing(u)
    ensures Sort(less, Named(name, u)) == InsertionSort(less, Named(name, u))
  {
    SortBlocksNamed(less, lt, name, u);
    SortBlocksSorts(lt, n, u);
    MergeAllNamed(less, lt, n, name, SortBlocks(lt, u), BLOCK);
    SortSorts(lt, n, u);
    InsertionSorts(lt, n, u);
    SortPermutes(lt, u);
    InsertionPermutes(lt, u);
    SameBelow(u, Sort(lt, u), n);
    AscendingUnique(lt, n, Sort(lt, u), InsertionSort(lt, u));
    InsertionNamed(less, lt, name, u);
  }
}
