/** IPv4 networks in prefix notation (section 3.1 of RFC 4632): an address and a mask
    length, the address being a multiple of the block size.  Two such blocks are either
    disjoint or nested, which everything else in this project rests on. */
module Prefixes {

  datatype Option<+T> = None | Some(value: T)

  const ADDRESS_BITS: nat := 32

  function Pow2(n: nat): (r: nat)
    ensures r >= 1
  {
    if n == 0 then 1 else 2 * Pow2(n - 1)
  }

  /** The k lowest bits of the address are zero. */
  predicate HasZeroBits(addr: nat, k: nat) {
    k == 0 || (addr % 2 == 0 && HasZeroBits(addr / 2, k - 1))
  }

  datatype Cidr = Cidr(addr: nat, len: nat)

  function BlockSize(len: nat): (r: nat)
    requires len <= ADDRESS_BITS
    ensures r >= 1
  {
    Pow2(ADDRESS_BITS - len)
  }

  predicate IsPrefix(c: Cidr) {
    && c.len <= ADDRESS_BITS
    && HasZeroBits(c.addr, ADDRESS_BITS - c.len)
    && c.addr + BlockSize(c.len) <= Pow2(ADDRESS_BITS)
  }

  type Prefix = c: Cidr | IsPrefix(c) witness Cidr(0, 32)

  /** The first address after the block. */
  function End(c: Prefix): nat {
    c.addr + BlockSize(c.len)
  }

  /** The address ranges intersect. */
  predicate Overlaps(a: Prefix, b: Prefix) {
    a.addr < End(b) && b.addr < End(a)
  }

  /** The address range of b lies within that of a. */
  predicate Covers(a: Prefix, b: Prefix) {
    a.addr <= b.addr && End(b) <= End(a)
  }

  predicate StrictlyCovers(a: Prefix, b: Prefix) {
    Covers(a, b) && a.len < b.len
  }

  lemma {:induction false} Pow2Strict(i: nat, j: nat)
    requires i < j
    ensures Pow2(i) < Pow2(j)
  {
    if i + 1 < j {
      Pow2Strict(i, j - 1);
    }
  }

  /** Overlapping aligned ranges nest: the one with the larger alignment holds the other. */
  lemma {:induction false} AlignedRangesNest(x: nat, k: nat, y: nat, j: nat)
    requires j <= k && HasZeroBits(x, k) && HasZeroBits(y, j)
    requires x < y + Pow2(j) && y < x + Pow2(k)
    ensures x <= y && y + Pow2(j) <= x + Pow2(k)
  {
    if j > 0 {
      AlignedRangesNest(x / 2, k - 1, y / 2, j - 1);
    }
  }

  /** Two blocks are disjoint or nested, and the mask lengths say which way. */
  lemma NestedOrDisjoint(a: Prefix, b: Prefix)
    ensures Overlaps(a, b) <==> Covers(a, b) || Covers(b, a)
    ensures Overlaps(a, b) && a.len <= b.len ==> Covers(a, b)
    ensures Covers(a, b) ==> a == b || StrictlyCovers(a, b)
  {
    if Overlaps(a, b) {
      if a.len <= b.len {
        AlignedRangesNest(a.addr, 32 - a.len, b.addr, 32 - b.len);
      } else {
        AlignedRangesNest(b.addr, 32 - b.len, a.addr, 32 - a.len);
      }
    }
    if Covers(a, b) && b.len < a.len {
      Pow2Strict(32 - a.len, 32 - b.len);
    }
  }

  /** Two blocks around a common third one are comparable. */
  lemma CoversOfCommon(a: Prefix, b: Prefix, c: Prefix)
    requires Covers(a, c) && Covers(b, c)
    ensures Overlaps(a, b)
    ensures Covers(a, b) || StrictlyCovers(b, a)
    ensures a.len <= b.len ==> Covers(a, b)
  {
    NestedOrDisjoint(a, b);
    NestedOrDisjoint(b, a);
  }

  // ----- Sub-blocks -----

  lemma {:induction false} ZeroBitsSplit(addr: nat, k: nat)
    requires k > 0 && HasZeroBits(addr, k)
    ensures HasZeroBits(addr, k - 1) && HasZeroBits(addr + Pow2(k - 1), k - 1)
  {
    if k > 1 {
      ZeroBitsSplit(addr / 2, k - 1);
      assert (addr + Pow2(k - 1)) / 2 == addr / 2 + Pow2(k - 2);
    }
  }

  /** The two halves of a block. */
  function Halves(p: Prefix): (r: (Prefix, Prefix))
    requires p.len < ADDRESS_BITS
    ensures r.0 == Cidr(p.addr, p.len + 1)
    ensures r.1 == Cidr(p.addr + BlockSize(p.len + 1), p.len + 1)
  {
    ZeroBitsSplit(p.addr, ADDRESS_BITS - p.len);
    (Cidr(p.addr, p.len + 1), Cidr(p.addr + BlockSize(p.len + 1), p.len + 1))
  }

  /** All blocks of a given length within p. */
  function SubBlocks(p: Prefix, len: nat): (r: set<Prefix>)
    requires p.len <= len <= ADDRESS_BITS
    decreases len - p.len
  {
    if p.len == len then {p} else SubBlocks(Halves(p).0, len) + SubBlocks(Halves(p).1, len)
  }

  lemma {:induction false} SubBlocksExact(p: Prefix, len: nat, c: Prefix)
    requires p.len <= len <= ADDRESS_BITS
    ensures c in SubBlocks(p, len) <==> Covers(p, c) && c.len == len
    decreases len - p.len
  {
    if p.len == len {
      NestedOrDisjoint(p, c);
    } else {
      var (lo, hi) := Halves(p);
      SubBlocksExact(lo, len, c);
      SubBlocksExact(hi, len, c);
      if Covers(p, c) && c.len == len {
        NestedOrDisjoint(lo, c);
        NestedOrDisjoint(hi, c);
      }
    }
  }

  lemma {:induction false} SubBlocksCount(p: Prefix, len: nat)
    requires p.len <= len <= ADDRESS_BITS
    ensures |SubBlocks(p, len)| == Pow2(len - p.len)
    decreases len - p.len
  {
    if p.len < len {
      var (lo, hi) := Halves(p);
      SubBlocksCount(lo, len);
      SubBlocksCount(hi, len);
      forall c | c in SubBlocks(lo, len)
        ensures c !in SubBlocks(hi, len)
      {
        SubBlocksExact(lo, len, c);
        SubBlocksExact(hi, len, c);
      }
      assert SubBlocks(lo, len) !! SubBlocks(hi, len);
      assert |SubBlocks(lo, len) + SubBlocks(hi, len)| == |SubBlocks(lo, len)| + |SubBlocks(hi, len)|;
    }
  }

  // ----- Counting addresses -----

  function Interval(lo: nat, n: nat): (r: set<nat>)
    ensures forall x :: x in r <==> lo <= x < lo + n
    ensures |r| == n
  {
    if n == 0 then {} else Interval(lo, n - 1) + {lo + n - 1}
  }

  function Addresses(c: Prefix): set<nat> {
    Interval(c.addr, BlockSize(c.len))
  }

  ghost function SumOfSizes(s: set<Prefix>): nat {
    if s == {} then 0 else var c :| c in s; BlockSize(c.len) + SumOfSizes(s - {c})
  }

  ghost predicate PairwiseDisjoint(s: set<Prefix>) {
    forall a, b | a in s && b in s && a != b :: !Overlaps(a, b)
  }

  ghost predicate Occupied(s: set<Prefix>, x: nat) {
    exists c :: c in s && x in Addresses(c)
  }

  /** Disjoint blocks: the sizes add up to the number of addresses they hold. */
  lemma {:induction false} SizesCountAddresses(s: set<Prefix>) returns (held: set<nat>)
    requires PairwiseDisjoint(s)
    ensures forall x :: x in held <==> Occupied(s, x)
    ensures SumOfSizes(s) == |held|
  {
    if s == {} {
      held := {};
    } else {
      var c :| c in s && SumOfSizes(s) == BlockSize(c.len) + SumOfSizes(s - {c});
      var rest := SizesCountAddresses(s - {c});
      held := rest + Addresses(c);
      forall x | x in rest
        ensures x !in Addresses(c) && Occupied(s, x)
      {
        var d :| d in s - {c} && x in Addresses(d);
        assert !Overlaps(c, d);
      }
      assert rest !! Addresses(c);
      forall x | Occupied(s, x)
        ensures x in held
      {
        var d :| d in s && x in Addresses(d);
        assert d == c || d in s - {c};
      }
    }
  }

  lemma SubsetSize<T>(a: set<T>, b: set<T>)
    requires a <= b
    ensures |a| <= |b|
  {
    assert b == a + (b - a);
  }

  /** Disjoint blocks within disjoint enclosing blocks take no more room than those. */
  lemma CapacityBound(inner: set<Prefix>, outer: set<Prefix>)
    requires PairwiseDisjoint(inner) && PairwiseDisjoint(outer)
    requires forall c | c in inner :: exists p | p in outer :: Covers(p, c)
    ensures SumOfSizes(inner) <= SumOfSizes(outer)
  {
    var a := SizesCountAddresses(inner);
    var b := SizesCountAddresses(outer);
    forall x | x in a
      ensures x in b
    {
      var c :| c in inner && x in Addresses(c);
      var p :| p in outer && Covers(p, c);
      assert x in Addresses(p);
    }
    SubsetSize(a, b);
  }
}
