/** The allocator state as a forest of blocks: every registered block is a root or is
    registered under a parent.  The main result is that the links carry no information of
    their own: in a well-formed forest the parent of a block is its tightest registered
    encloser, so the set of registered blocks determines the whole state. */
module Forest {
  import opened Prefixes

  /** Registered block to the parent it was acquired from, None for a root. */
  type Allocator = map<Prefix, Option<Prefix>>

  /** Children lie strictly inside their registered parents; siblings are disjoint, and so
      are roots. */
  ghost predicate WellFormed(a: Allocator) {
    && (forall c | c in a && a[c].Some? :: a[c].value in a && StrictlyCovers(a[c].value, c))
    && (forall c, d | c in a && d in a && c != d && a[c] == a[d] :: !Overlaps(c, d))
  }

  /** o is the smallest member of s strictly around c, or None if there is no such member. */
  ghost predicate IsTightest(s: set<Prefix>, c: Prefix, o: Option<Prefix>) {
    match o
    case None => forall p | p in s :: !StrictlyCovers(p, c)
    case Some(t) => t in s && StrictlyCovers(t, c) && forall p | p in s && StrictlyCovers(p, c) :: Covers(p, t)
  }

  lemma {:induction false} ParentIsBelow(a: Allocator, x: Prefix, y: Prefix)
    requires WellFormed(a) && x in a && y in a && StrictlyCovers(x, y)
    ensures a[y].Some? && Covers(x, a[y].value)
    decreases x.len + y.len
  {
    NestedOrDisjoint(x, y);
    if a[y].None? {
      assert a[x] != a[y];
      ParentIsBelow(a, a[x].value, y);
    } else {
      var p := a[y].value;
      CoversOfCommon(x, p, y);
      if !Covers(x, p) {
        ParentIsBelow(a, p, x);
        var r := a[x].value;
        if r != p {
          ParentIsBelow(a, r, y);
          NestedOrDisjoint(p, r);
          NestedOrDisjoint(r, p);
        }
      }
    }
  }

  lemma TightestIsWellFormed(a: Allocator)
    requires forall c | c in a :: IsTightest(a.Keys, c, a[c])
    ensures WellFormed(a)
  {
    forall c, d | c in a && d in a && c != d && a[c] == a[d]
      ensures !Overlaps(c, d)
    {
      NestedOrDisjoint(c, d);
      NestedOrDisjoint(d, c);
      assert IsTightest(a.Keys, c, a[c]) && IsTightest(a.Keys, d, a[d]);
      if a[c].Some? {
        NestedOrDisjoint(c, a[c].value);
        NestedOrDisjoint(d, a[c].value);
      }
    }
  }

  /** The forest conditions hold exactly when every link is the tightest encloser. */
  lemma LinksAreTightest(a: Allocator)
    ensures WellFormed(a) <==> forall c | c in a :: IsTightest(a.Keys, c, a[c])
  {
    if WellFormed(a) {
      forall c | c in a
        ensures IsTightest(a.Keys, c, a[c])
      {
        forall p | p in a.Keys && StrictlyCovers(p, c) {
          ParentIsBelow(a, p, c);
        }
      }
    }
    if forall c | c in a :: IsTightest(a.Keys, c, a[c]) {
      TightestIsWellFormed(a);
    }
  }

  /** Canonical form: well-formed forests over the same blocks are equal. */
  lemma CanonicalForm(a: Allocator, b: Allocator)
    requires WellFormed(a) && WellFormed(b) && a.Keys == b.Keys
    ensures a == b
  {
    LinksAreTightest(a);
    LinksAreTightest(b);
    forall c | c in a
      ensures a[c] == b[c]
    {
      assert IsTightest(a.Keys, c, a[c]) && IsTightest(b.Keys, c, b[c]);
      if a[c].Some? && b[c].Some? {
        NestedOrDisjoint(a[c].value, b[c].value);
        NestedOrDisjoint(b[c].value, a[c].value);
      }
    }
  }

  // ----- Growing and shrinking a forest -----

  /** Block c can be registered under p: strictly inside, new, and clear of p's children. */
  predicate Fits(a: Allocator, p: Prefix, c: Prefix) {
    && p in a && c !in a && StrictlyCovers(p, c)
    && forall d | d in a && a[d] == Some(p) :: !Overlaps(d, c)
  }

  lemma AddChild(a: Allocator, p: Prefix, c: Prefix)
    requires WellFormed(a) && Fits(a, p, c)
    ensures WellFormed(a[c := Some(p)])
  {
    var b := a[c := Some(p)];
    forall d, e | d in b && e in b && d != e && b[d] == b[e]
      ensures !Overlaps(d, e)
    {
      assert d == c || e == c || a[d] == a[e];
    }
  }

  lemma AddRoot(a: Allocator, c: Prefix)
    requires WellFormed(a) && c !in a && forall d | d in a :: !Overlaps(d, c)
    ensures WellFormed(a[c := None])
  {
    var b := a[c := None];
    forall d, e | d in b && e in b && d != e && b[d] == b[e]
      ensures !Overlaps(d, e)
    {
      assert d == c || e == c || a[d] == a[e];
    }
  }

  lemma {:induction false} LeafCoversNothing(a: Allocator, c: Prefix, x: Prefix)
    requires WellFormed(a) && c in a && x in a && forall d | d in a :: a[d] != Some(c)
    ensures !StrictlyCovers(c, x)
    decreases x.len
  {
    if StrictlyCovers(c, x) {
      ParentIsBelow(a, c, x);
      NestedOrDisjoint(c, a[x].value);
      LeafCoversNothing(a, c, a[x].value);
    }
  }

  /** A block that fits under p meets, of all the registered blocks, only those around p. */
  lemma NewBlockMeetsAncestorsOnly(a: Allocator, p: Prefix, c: Prefix, x: Prefix)
    requires WellFormed(a) && Fits(a, p, c) && x in a && Overlaps(x, c)
    ensures StrictlyCovers(x, c) && Covers(x, p)
  {
    var b := a[c := Some(p)];
    AddChild(a, p, c);
    NestedOrDisjoint(x, c);
    NestedOrDisjoint(c, x);
    if StrictlyCovers(c, x) {
      LeafCoversNothing(b, c, x);
    } else {
      ParentIsBelow(b, x, c);
    }
  }

  function Restrict(a: Allocator, s: set<Prefix>): Allocator {
    map c | c in a && c in s :: a[c]
  }

  /** The blocks in s form a forest of their own within a.  Blocks outside s may be left
      over from earlier allocations, with or without a registered parent. */
  ghost predicate Tree(a: Allocator, s: set<Prefix>) {
    s <= a.Keys && WellFormed(Restrict(a, s))
  }

  lemma TreeOfAll(a: Allocator)
    ensures Restrict(a, a.Keys) == a
    ensures Tree(a, a.Keys) <==> WellFormed(a)
  {
    assert Restrict(a, a.Keys) == a;
  }

  /** Acquiring a block from a member of s keeps the forest and adds the block to it. */
  lemma GrowTree(a: Allocator, s: set<Prefix>, p: Prefix, c: Prefix)
    requires Tree(a, s) && p in s && Fits(a, p, c)
    ensures Tree(a[c := Some(p)], s + {c})
    ensures forall x | x in s && Overlaps(x, c) :: StrictlyCovers(x, c) && Covers(x, p)
  {
    var r := Restrict(a, s);
    assert Fits(r, p, c);
    AddChild(r, p, c);
    assert Restrict(a[c := Some(p)], s + {c}) == r[c := Some(p)];
    forall x | x in s && Overlaps(x, c)
      ensures StrictlyCovers(x, c) && Covers(x, p)
    {
      NewBlockMeetsAncestorsOnly(r, p, c, x);
    }
  }

  /** Blocks whose parents are kept as well form a forest; others may go. */
  lemma ShrinkTree(a: Allocator, s: set<Prefix>, b: Allocator, t: set<Prefix>)
    requires Tree(a, s) && t <= s && t <= b.Keys
    requires forall c | c in t :: b[c] == a[c]
    requires forall c | c in t && a[c].Some? :: a[c].value in t
    ensures Tree(b, t)
  {
    var r, q := Restrict(a, s), Restrict(b, t);
    forall c | c in q
      ensures c in r && q[c] == r[c]
    {
    }
    forall c | c in q && q[c].Some?
      ensures q[c].value in q && StrictlyCovers(q[c].value, c)
    {
      assert r[c] == q[c];
    }
  }

  /** In a tree, the parent of a member is its tightest encloser among the members. */
  lemma TreeLink(a: Allocator, s: set<Prefix>, c: Prefix)
    requires Tree(a, s) && c in s
    ensures IsTightest(s, c, a[c])
  {
    LinksAreTightest(Restrict(a, s));
    assert Restrict(a, s).Keys == s;
    assert IsTightest(s, c, Restrict(a, s)[c]);
  }

  // ----- Capacity -----

  ghost function ChildrenOf(a: Allocator, p: Prefix): set<Prefix> {
    set c | c in a && a[c] == Some(p)
  }

  ghost function SizedChildren(a: Allocator, p: Prefix, len: nat): set<Prefix> {
    set c | c in a && a[c] == Some(p) && c.len == len
  }

  /** The blocks allocated directly from one of the parents. */
  ghost function FirstLevel(a: Allocator, parents: set<Prefix>): set<Prefix> {
    set c | c in a && a[c].Some? && a[c].value in parents
  }

  /** Every block lies strictly inside its parent, and the children of one parent are
      disjoint.  Unlike a forest, this survives the loss of a parent. */
  ghost predicate ChildrenApart(a: Allocator) {
    && (forall c | c in a && a[c].Some? :: StrictlyCovers(a[c].value, c))
    && (forall c, d | c in a && d in a && c != d && a[c].Some? && a[c] == a[d] :: !Overlaps(c, d))
  }

  /** The blocks allocated directly from p are no larger in sum than p, and at most
      2^(s - p.len) of them have length s. */
  lemma ChildCapacity(a: Allocator, p: Prefix, len: nat)
    requires ChildrenApart(a) && p.len <= len <= ADDRESS_BITS
    ensures SumOfSizes(ChildrenOf(a, p)) <= BlockSize(p.len)
    ensures |SizedChildren(a, p, len)| <= Pow2(len - p.len)
  {
    assert PairwiseDisjoint({p}) && SumOfSizes({p}) == BlockSize(p.len) by {
      var c :| c in {p} && SumOfSizes({p}) == BlockSize(c.len) + SumOfSizes({p} - {c});
      assert {p} - {c} == {};
    }
    CapacityBound(ChildrenOf(a, p), {p});
    var sized := SizedChildren(a, p, len);
    forall c | c in sized
      ensures c in SubBlocks(p, len)
    {
      SubBlocksExact(p, len, c);
    }
    SubBlocksCount(p, len);
    SubsetSize(sized, SubBlocks(p, len));
  }

  /** Summed over all prefixes in `parents`: the blocks directly under them fit into them. */
  lemma FirstLevelCapacity(a: Allocator, parents: set<Prefix>)
    requires ChildrenApart(a) && PairwiseDisjoint(parents)
    ensures SumOfSizes(FirstLevel(a, parents)) <= SumOfSizes(parents)
  {
    var inner := FirstLevel(a, parents);
    forall c, d | c in inner && d in inner && c != d
      ensures !Overlaps(c, d)
    {
      if a[c] != a[d] {
        assert a[c].value in parents && a[d].value in parents;
      }
    }
    forall c | c in inner
      ensures exists p | p in parents :: Covers(p, c)
    {
      assert Covers(a[c].value, c);
    }
    CapacityBound(inner, parents);
  }
}
