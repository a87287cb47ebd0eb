/** The module-level `let id = …; const getId = () => `prefix${id++}`` counters of the editor and
    of the landing-page simulator. The counter is never reset, so no id is handed out twice. */
module IdCounter {
  import opened Text

  class Counter {
    const prefix: string
    var next: nat
    /** The ids handed out so far. */
    ghost var issued: set<string>

    ghost predicate Valid()
      reads this
    {
      forall id :: id in issued ==> exists k: nat :: k < next && id == prefix + NatToString(k)
    }

    constructor (prefix: string, start: nat)
      ensures Valid() && this.prefix == prefix && next == start && issued == {}
    {
      this.prefix := prefix;
      next := start;
      issued := {};
    }

    /** `getId()`: the current counter value in decimal after the prefix; the counter moves on. */
    method GetId() returns (id: string)
      requires Valid()
      modifies this
      ensures Valid() && id == prefix + NatToString(old(next)) && next == old(next) + 1
      ensures id !in old(issued) && issued == old(issued) + {id}
    {
      id := prefix + NatToString(next);
      forall other | other in issued
        ensures other != id
      {
        var k: nat :| k < next && other == prefix + NatToString(k);
        PrefixedIdsDistinct(prefix, k, next);
      }
      issued := issued + {id};
      next := next + 1;
    }
  }
}
