/** `crypto.randomUUID()`, modelled as an oracle that never repeats an id it has
    issued. The ids it hands out are abstract: only their distinctness and
    non-emptiness matter to the pages. */
module Uuid {

  class UuidSource {
    /** Every id issued so far. */
    var issued: set<string>
    var counter: nat

    ghost predicate Valid()
      reads this
    {
      forall u :: u in issued ==> 0 < |u| <= counter
    }

    constructor ()
      ensures Valid() && issued == {}
    {
      issued, counter := {}, 0;
    }

    /** A fresh, non-empty id. */
    method RandomUuid() returns (id: string)
      requires Valid()
      modifies this
      ensures Valid()
      ensures id != [] && id !in old(issued)
      ensures issued == old(issued) + {id}
    {
      id := seq(counter + 1, _ => 'f');
      counter := counter + 1;
      issued := issued + {id};
    }
  }
}
