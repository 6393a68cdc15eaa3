/** The configuration: parent networks by identifier, and the injection rules. */
module Config {
  import opened Prefixes

  type MaskLength = n: nat | n <= ADDRESS_BITS

  /** An empty id or path stands for an absent one. */
  datatype Injection = Injection(
    id: string, path: string, paths: seq<string>, parents: seq<string>, subnetSize: MaskLength)

  /** Rule identifiers are not empty. */
  type RuleId = s: string | s != "" witness "r"

  datatype Rule = Rule(id: RuleId, injections: seq<Injection>)

  datatype Spec = Spec(parentCIDRs: map<string, seq<Prefix>>, injectionRules: seq<Rule>)

  function GetPaths(inj: Injection): seq<string> {
    (if inj.path != "" then [inj.path] else []) + inj.paths
  }

  function AllPaths(injs: seq<Injection>): seq<string> {
    if injs == [] then [] else AllPaths(injs[..|injs| - 1]) + GetPaths(injs[|injs| - 1])
  }

  predicate NoDuplicates<T(==)>(s: seq<T>) {
    forall i, j | 0 <= i < j < |s| :: s[i] != s[j]
  }

  /** `order` lists every key exactly once: one way a map can be iterated. */
  predicate Enumerates<K(==)>(order: seq<K>, keys: set<K>) {
    NoDuplicates(order) && (forall k | k in order :: k in keys) && (forall k | k in keys :: k in order)
  }

  /** The parent networks in the order in which an iteration meets them. */
  function Flatten(order: seq<string>, parents: map<string, seq<Prefix>>): seq<Prefix>
    requires forall id | id in order :: id in parents
  {
    if order == [] then [] else Flatten(order[..|order| - 1], parents) + parents[order[|order| - 1]]
  }

  /** The set of all parent networks. */
  ghost predicate IsParent(parents: map<string, seq<Prefix>>, p: Prefix) {
    exists id :: id in parents && p in parents[id]
  }

  lemma {:induction false} FlattenMembers(order: seq<string>, parents: map<string, seq<Prefix>>, p: Prefix)
    requires forall id | id in order :: id in parents
    ensures p in Flatten(order, parents) <==> exists id :: id in order && p in parents[id]
  {
    if order != [] {
      var n := |order| - 1;
      FlattenMembers(order[..n], parents, p);
      assert order == order[..n] + [order[n]];
    }
  }
}
