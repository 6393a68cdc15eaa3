/** The block allocator library the controller delegates to, and the shared instance
    around it.  The library's own code is not part of this model: the contracts below are
    what the model assumes of it, and the bodies show that they can be met.  Acquiring is
    left free to choose any fitting block.  Releasing is pinned down only for a block with
    a registered parent and no registered children; in every other case the library may
    release the block, refuse, or report it as not found. */
module GoIpam {
  import opened Prefixes
  import opened Forest

  datatype Outcome = Released | NotFound | Refused

  /** Some block of this length is still free in p. */
  ghost predicate CanHost(a: Allocator, p: Prefix, len: nat) {
    exists c: Prefix :: c.len == len && Fits(a, p, c)
  }

  ghost predicate AcquireSpec(a: Allocator, p: Prefix, len: nat, r: Option<Prefix>, b: Allocator) {
    match r
    case Some(c) => c.len == len && Fits(a, p, c) && b == a[c := Some(p)]
    case None => !CanHost(a, p, len) && b == a
  }

  /** The state after acquiring exactly block c under p, if it fits. */
  function AcquireSpecific(a: Allocator, p: Prefix, c: Prefix): Option<Allocator> {
    if Fits(a, p, c) then Some(a[c := Some(p)]) else None
  }

  /** The state after registering c as a root, if nothing registered overlaps it. */
  function NewRoot(a: Allocator, c: Prefix): Option<Allocator> {
    if forall d | d in a :: !Overlaps(d, c) then Some(a[c := None]) else None
  }

  predicate Releasable(a: Allocator, c: Prefix) {
    && c in a && a[c].Some? && a[c].value in a
    && forall d | d in a :: a[d] != Some(c)
  }

  predicate ReleaseSpec(a: Allocator, c: Prefix, out: Outcome, b: Allocator) {
    && (out.Released? ==> c in a && b == a - {c})
    && (!out.Released? ==> b == a)
    && (Releasable(a, c) ==> out.Released?)
  }

  class Library {
    var prefixes: Allocator

    constructor ()
      ensures prefixes == map[]
    {
      prefixes := map[];
    }

    /** Dump followed by load into a new instance: an exact copy. */
    constructor Load(dump: Allocator)
      ensures prefixes == dump
    {
      prefixes := dump;
    }

    method PrefixFrom(c: Prefix) returns (found: bool)
      ensures found == (c in prefixes)
    {
      found := c in prefixes;
    }

    method NewPrefix(c: Prefix) returns (ok: bool)
      modifies this
      ensures ok == NewRoot(old(prefixes), c).Some?
      ensures prefixes == if ok then NewRoot(old(prefixes), c).value else old(prefixes)
    {
      ok := NewRoot(prefixes, c).Some?;
      if ok {
        prefixes := prefixes[c := None];
      }
    }

    method AcquireChildPrefix(p: Prefix, len: nat) returns (r: Option<Prefix>)
      modifies this
      ensures AcquireSpec(old(prefixes), p, len, r, prefixes)
    {
      r := None;
      if p.len < len <= ADDRESS_BITS {
        var free := set c | c in SubBlocks(p, len) && Fits(prefixes, p, c);
        forall c: Prefix | c.len == len && Fits(prefixes, p, c)
          ensures c in free
        {
          SubBlocksExact(p, len, c);
        }
        if free != {} {
          var c :| c in free;
          SubBlocksExact(p, len, c);
          prefixes := prefixes[c := Some(p)];
          r := Some(c);
        }
      }
    }

    method AcquireSpecificChildPrefix(p: Prefix, c: Prefix) returns (ok: bool)
      modifies this
      ensures ok == AcquireSpecific(old(prefixes), p, c).Some?
      ensures prefixes == if ok then AcquireSpecific(old(prefixes), p, c).value else old(prefixes)
    {
      ok := Fits(prefixes, p, c);
      if ok {
        prefixes := prefixes[c := Some(p)];
      }
    }

    method ReleaseChildPrefix(c: Prefix) returns (out: Outcome)
      modifies this
      ensures ReleaseSpec(old(prefixes), c, out, prefixes)
    {
      out := *;
      if c !in prefixes {
        out := NotFound;
      } else if out.Released? || Releasable(prefixes, c) {
        prefixes := prefixes - {c};
        out := Released;
      }
    }
  }

  /** The shared, lock-protected instance; the library object inside is replaced as a whole
      by a rebuild and by a successful release. */
  class Ipamer {
    var internal: Library

    constructor ()
      ensures fresh(internal) && internal.prefixes == map[]
    {
      internal := new Library();
    }
  }
}
