/** ClusterConfig resources, their patch lists, and the order the patches are kept in. */
module Patches {
  import opened Prefixes
  import opened Config
  import StableSort
  import SortInPlace

  /** A JSON string.  For one that is no CIDR, `mask` is the number after its only slash,
      -1 if there is none. */
  datatype Text = Block(cidr: Prefix) | Junk(text: string, mask: int)

  datatype Value = Absent | NotString | Str(text: Text)

  datatype Op = Add | Other

  datatype Patch = Patch(op: Op, path: string, value: Value)

  /** `finalizer` is the CIDR management finalizer, `foreign` says whether others are set. */
  datatype ClusterConfig = ClusterConfig(patches: seq<Patch>, finalizer: bool, foreign: bool, deleting: bool)

  function AddPatch(path: string, text: Text): Patch {
    Patch(Add, path, Str(text))
  }

  predicate AddsBlock(p: Patch) {
    p.op.Add? && p.value.Str? && p.value.text.Block?
  }

  function BlockOf(p: Patch): Prefix
    requires AddsBlock(p)
  {
    p.value.text.cidr
  }

  ghost predicate AllBlockPatches(patches: seq<Patch>) {
    forall i | 0 <= i < |patches| :: AddsBlock(patches[i])
  }

  /** Larger blocks come first. */
  ghost predicate SizeSorted(patches: seq<Patch>) {
    forall i, j | 0 <= i < j < |patches| && AddsBlock(patches[i]) && AddsBlock(patches[j]) ::
      BlockOf(patches[i]).len <= BlockOf(patches[j]).len
  }

  // ----- The comparison -----

  function SizeOf(p: Patch): int {
    if !p.op.Add? || !p.value.Str? then -1
    else match p.value.text
      case Block(c) => c.len
      case Junk(_, mask) => mask
  }

  predicate LexLess(s: string, t: string) {
    t != [] && (s == [] || s[0] < t[0] || (s[0] == t[0] && LexLess(s[1..], t[1..])))
  }

  /** The patch a has to come before b. */
  predicate Less(a: Patch, b: Patch) {
    && SizeOf(a) >= 0 && SizeOf(b) >= 0
    && (SizeOf(a) < SizeOf(b) || (SizeOf(a) == SizeOf(b) && LexLess(a.path, b.path)))
  }

  lemma {:induction false} LexTotal(s: string, t: string)
    ensures LexLess(s, t) || LexLess(t, s) || s == t
    ensures !(LexLess(s, t) && LexLess(t, s)) && !LexLess(s, s)
  {
    if s != [] && t != [] {
      LexTotal(s[1..], t[1..]);
      assert s == [s[0]] + s[1..] && t == [t[0]] + t[1..];
    }
    if s != [] {
      LexTotal(s[1..], s[1..]);
    }
  }

  lemma {:induction false} LexTransitive(s: string, t: string, u: string)
    ensures LexLess(s, t) && LexLess(t, u) ==> LexLess(s, u)
    ensures LexLess(s, t) && !LexLess(u, t) ==> LexLess(s, u)
    ensures !LexLess(t, s) && LexLess(t, u) ==> LexLess(s, u)
  {
    if s != [] && t != [] && u != [] {
      LexTransitive(s[1..], t[1..], u[1..]);
    }
  }

  /** They agree before i, and there s ends or has the smaller character. */
  ghost predicate SmallerAt(s: string, t: string, i: nat) {
    i <= |s| && i < |t| && s[..i] == t[..i] && (i == |s| || s[i] < t[i])
  }

  /** The first position at which two strings differ decides which one is smaller. */
  lemma {:induction false} FirstDifferenceDecides(s: string, t: string)
    ensures LexLess(s, t) <==> exists i :: SmallerAt(s, t, i)
  {
    if LexLess(s, t) {
      var i := WhereSmaller(s, t);
    }
    if i :| SmallerAt(s, t, i) {
      SmallerThere(s, t, i);
    }
  }

  lemma {:induction false} WhereSmaller(s: string, t: string) returns (i: nat)
    requires LexLess(s, t)
    ensures SmallerAt(s, t, i)
  {
    i := 0;
    if s != [] && s[0] == t[0] {
      i := WhereSmaller(s[1..], t[1..]);
      assert s[..i + 1] == [s[0]] + s[1..][..i] && t[..i + 1] == [t[0]] + t[1..][..i];
      i := i + 1;
    }
  }

  lemma {:induction false} SmallerThere(s: string, t: string, i: nat)
    requires SmallerAt(s, t, i)
    ensures LexLess(s, t)
  {
    if i > 0 {
      assert s[..i][0] == s[0] && t[..i][0] == t[0];
      assert s[1..][..i - 1] == s[..i][1..] && t[1..][..i - 1] == t[..i][1..];
      SmallerThere(s[1..], t[1..], i - 1);
    }
  }

  /** The patch adds a string with this mask length, as a block or as a text with one slash. */
  ghost predicate HasMask(p: Patch, m: nat) {
    && p.op == Add
    && ((exists c :: p.value == Str(Block(c)) && c.len == m) || exists text :: p.value == Str(Junk(text, m)))
  }

  /** Patches compare by mask length and then by the first difference of their paths. */
  lemma {:induction false} ComparedByMaskThenPath(a: Patch, b: Patch)
    ensures Less(a, b) <==> exists m, n ::
      HasMask(a, m) && HasMask(b, n) && (m < n || (m == n && exists i :: SmallerAt(a.path, b.path, i)))
  {
    FirstDifferenceDecides(a.path, b.path);
    MaskIsSize(a);
    MaskIsSize(b);
    if Less(a, b) {
      assert HasMask(a, SizeOf(a)) && HasMask(b, SizeOf(b));
    }
  }

  lemma {:induction false} MaskIsSize(p: Patch)
    ensures forall m :: HasMask(p, m) <==> SizeOf(p) == m
  {
  }

  predicate AllSized(s: seq<Patch>) {
    forall i | 0 <= i < |s| :: SizeOf(s[i]) >= 0
  }

  // ----- The sort -----

  /** Go's stable sort with the comparison. */
  function SortPatches(s: seq<Patch>): (r: seq<Patch>)
    ensures |r| == |s|
    ensures multiset(r) == multiset(s)
  {
    StableSort.SortPermutes(Less, s);
    StableSort.Sort(Less, s)
  }

  function SortByInsertion(s: seq<Patch>): (r: seq<Patch>)
    ensures |r| == |s|
    ensures multiset(r) == multiset(s)
  {
    StableSort.InsertionPermutes(Less, s);
    StableSort.InsertionSort(Less, s)
  }

  lemma ShortListsAreInserted(s: seq<Patch>)
    requires |s| <= StableSort.BLOCK
    ensures SortPatches(s) == SortByInsertion(s)
  {
  }

  method SortPatchesInPlace(a: array<Patch>)
    modifies a
    ensures a[..] == SortPatches(old(a[..]))
  {
    SortInPlace.SortArray(Less, a);
  }

  ghost predicate Ordered(s: seq<Patch>) {
    forall i, j | 0 <= i < j < |s| :: !Less(s[j], s[i])
  }

  lemma LessTransitive(a: Patch, b: Patch, c: Patch)
    requires SizeOf(a) >= 0 && SizeOf(b) >= 0 && SizeOf(c) >= 0
    ensures Less(a, b) && !Less(c, b) ==> Less(a, c)
    ensures !Less(b, a) && Less(b, c) ==> Less(a, c)
    ensures !(Less(a, b) && Less(b, a))
  {
    LexTransitive(a.path, b.path, c.path);
    LexTotal(a.path, b.path);
  }

  ghost predicate DistinctPaths(s: seq<Patch>) {
    forall i, j | 0 <= i < j < |s| :: s[i].path != s[j].path
  }

  lemma SameLast(s: seq<Patch>, t: seq<Patch>)
    requires Ordered(s) && Ordered(t) && AllSized(s) && AllSized(t) && DistinctPaths(s)
    requires multiset(s) == multiset(t) && s != [] && t != []
    ensures s[|s| - 1] == t[|t| - 1]
  {
    var x, y := s[|s| - 1], t[|t| - 1];
    assert x in multiset(t) && y in multiset(s);
    var j :| 0 <= j < |t| && t[j] == x;
    var i :| 0 <= i < |s| && s[i] == y;
    assert !Less(x, y) || i == |s| - 1;
    assert !Less(y, x) || j == |t| - 1;
    LexTotal(x.path, y.path);
  }

  /** Distinct paths leave no ties, so two ordered lists of the same patches are equal. */
  lemma {:induction false} OrderedUnique(s: seq<Patch>, t: seq<Patch>)
    requires Ordered(s) && Ordered(t) && AllSized(s) && AllSized(t) && DistinctPaths(s)
    requires multiset(s) == multiset(t)
    ensures s == t
  {
    assert |multiset(s)| == |s| && |multiset(t)| == |t|;
    if s != [] {
      var n := |s| - 1;
      SameLast(s, t);
      DropLast(s);
      DropLast(t);
      OrderedInit(s);
      OrderedInit(t);
      OrderedUnique(s[..n], t[..n]);
    }
  }

  lemma OrderedInit(s: seq<Patch>)
    requires Ordered(s) && AllSized(s) && s != []
    ensures Ordered(s[..|s| - 1]) && AllSized(s[..|s| - 1])
    ensures DistinctPaths(s) ==> DistinctPaths(s[..|s| - 1])
  {
    assert forall i | 0 <= i < |s| - 1 :: s[..|s| - 1][i] == s[i];
  }

  lemma DropLast<T>(s: seq<T>)
    requires s != []
    ensures s == s[..|s| - 1] + [s[|s| - 1]]
    ensures multiset(s[..|s| - 1]) == multiset(s) - multiset{s[|s| - 1]}
  {
    assert s == s[..|s| - 1] + [s[|s| - 1]];
  }

  // ----- Patch lists generated from a map of injections -----

  type Injections = map<string, Text>

  /** The patches in the order in which an iteration over the map meets the paths. */
  function Listing(order: seq<string>, injections: Injections): (r: seq<Patch>)
    requires forall p | p in order :: p in injections
    ensures |r| == |order| && forall i | 0 <= i < |r| :: r[i] == AddPatch(order[i], injections[order[i]])
  {
    seq(|order|, i requires 0 <= i < |order| => AddPatch(order[i], injections[order[i]]))
  }

  ghost predicate Sized(injections: Injections) {
    forall p | p in injections :: SizeOf(AddPatch(p, injections[p])) >= 0
  }

  lemma {:induction false} MultisetOfDistinct<T>(s: seq<T>, x: T)
    requires NoDuplicates(s)
    ensures multiset(s)[x] == if x in s then 1 else 0
  {
    if s != [] {
      var n := |s| - 1;
      MultisetOfDistinct(s[..n], x);
      assert s == s[..n] + [s[n]];
    }
  }

  lemma PermutationKeepsPaths(s: seq<Patch>, t: seq<Patch>)
    requires multiset(s) == multiset(t) && DistinctPaths(s)
    ensures DistinctPaths(t)
  {
    forall i, j | 0 <= i < j < |t|
      ensures t[i].path != t[j].path
    {
      if t[i].path == t[j].path {
        assert t[i] in multiset(s) && t[j] in multiset(s);
        assert t[i] == t[j];
        var u := t[..i] + t[i + 1..j] + t[j + 1..];
        assert t == t[..i] + [t[i]] + t[i + 1..j] + [t[j]] + t[j + 1..];
        assert multiset(t)[t[i]] >= 2;
        MultisetOfDistinct(s, t[i]);
      }
    }
  }

  /** Larger blocks come first: an enclosing block precedes the blocks inside it. */
  lemma EnclosingFirst(s: seq<Patch>, i: nat, j: nat)
    requires Ordered(s) && i < |s| && j < |s| && AddsBlock(s[i]) && AddsBlock(s[j])
    requires StrictlyCovers(BlockOf(s[i]), BlockOf(s[j]))
    ensures i < j
  {
    assert Less(s[i], s[j]);
  }

  /** A new ClusterConfig: the finalizer, and an "add" for each injection, sorted. */
  ghost predicate Generated(injections: Injections, cc: ClusterConfig) {
    exists order :: Enumerates(order, injections.Keys)
      && cc == ClusterConfig(SortPatches(Listing(order, injections)), true, false, false)
  }

  /** The patches are the existing ones and then one for each injection, in some order. */
  ghost predicate Collected(existing: seq<Patch>, injections: Injections, patches: seq<Patch>) {
    exists order :: Enumerates(order, injections.Keys) && patches == existing + Listing(order, injections)
  }

  method GenerateClusterConfig(injections: Injections) returns (cc: ClusterConfig)
    ensures Generated(injections, cc)
  {
    var patches := CollectPatches(injections, []);
    ghost var order :| Enumerates(order, injections.Keys) && patches == [] + Listing(order, injections);
    assert patches == Listing(order, injections);
    patches := Sorted(patches);
    cc := ClusterConfig(patches, true, false, false);
  }

  method Sorted(patches: seq<Patch>) returns (r: seq<Patch>)
    ensures r == SortPatches(patches)
  {
    var a := new Patch[|patches|](i requires 0 <= i < |patches| => patches[i]);
    assert a[..] == patches;
    SortPatchesInPlace(a);
    r := a[..];
  }

  /** The loop that appends one patch for every entry of the map. */
  method CollectPatches(injections: Injections, existing: seq<Patch>) returns (patches: seq<Patch>)
    ensures Collected(existing, injections, patches)
  {
    patches := existing;
    ghost var order: seq<string> := [];
    var todo := injections.Keys;
    while todo != {}
      invariant todo <= injections.Keys
      invariant Enumerates(order, injections.Keys - todo)
      invariant patches == existing + Listing(order, injections)
      decreases |todo|
    {
      var path :| path in todo;
      todo := todo - {path};
      patches := patches + [AddPatch(path, injections[path])];
      order := order + [path];
    }
  }
}
