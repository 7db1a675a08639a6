/** The address-keyed validator store of validator_registry.go, over a storage that is a map. */
module Validators {
  import opened Base
  import opened Ledger

  /** Every entry once, in some order: what iterating over a Go map yields. */
  ghost predicate Enumerates(vs: seq<Validator>, r: Registry) {
    && (forall v :: v in vs <==> v.address in r && r[v.address] == v)
    && (forall i, j :: 0 <= i < j < |vs| ==> vs[i].address != vs[j].address)
  }

  class ValidatorRegistry {
    var entries: Registry

    constructor ()
      ensures entries == map[]
    {
      entries := map[];
    }

    function GetValidator(addr: Address): (v: Option<Validator>)
      reads this
      ensures v.Some? <==> addr in entries
      ensures v.Some? ==> v.value == entries[addr] && v.value.address == addr
    {
      if addr in entries then Some(entries[addr]) else None
    }

    method RegisterValidator(v: Validator)
      modifies this
      ensures entries == old(entries)[v.address := v]
    {
      entries := entries[v.address := v];
    }

    method GetAllValidators() returns (vs: seq<Validator>)
      ensures Enumerates(vs, entries)
    {
      vs := [];
      var rest := entries.Keys;
      while rest != {}
        invariant rest <= entries.Keys
        invariant forall v :: v in vs <==> v.address in entries.Keys - rest && entries[v.address] == v
        invariant forall i, j :: 0 <= i < j < |vs| ==> vs[i].address != vs[j].address
        decreases |rest|
      {
        var a :| a in rest;
        forall i | 0 <= i < |vs| ensures vs[i].address != a { assert vs[i] in vs; }
        rest := rest - {a};
        vs := vs + [entries[a]];
      }
    }
  }
}
