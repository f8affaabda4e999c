/**
 * The slot-type registry that `NewOptions` builds once: the name of each
 * field's type mapped to the field's name.
 */
module Registry {
  import opened OptionTypes

  /**
   * The registry of a spec, built field by field in declaration order; a later
   * field overwrites the entry of an earlier field with the same type name.
   */
  function RegistryOf(fields: seq<Field>): map<string, string>
  {
    if |fields| == 0 then map[]
    else
      var last := fields[|fields| - 1];
      RegistryOf(fields[..|fields| - 1])[last.typeName := last.name]
  }

  /** Reading a Go map: a missing key yields the zero value "". */
  function Lookup(m: map<string, string>, t: string): string
  {
    if t in m then m[t] else ""
  }

  /** A type name is registered exactly when some field is declared with it. */
  lemma {:induction false} RegistryDomain(fields: seq<Field>, t: string)
    ensures t in RegistryOf(fields) <==> exists i :: 0 <= i < |fields| && fields[i].typeName == t
  {
    if |fields| > 0 {
      var init := fields[..|fields| - 1];
      RegistryDomain(init, t);
      if t in RegistryOf(init) {
        var i :| 0 <= i < |init| && init[i].typeName == t;
        assert fields[i].typeName == t;
      }
      if exists i :: 0 <= i < |fields| && fields[i].typeName == t {
        var i :| 0 <= i < |fields| && fields[i].typeName == t;
        if i < |init| {
          assert init[i].typeName == t;
        }
      }
    }
  }

  /** The last field declared with a type name is the one the registry maps it to. */
  lemma {:induction false} RegistryLastWins(fields: seq<Field>, i: nat)
    requires i < |fields| && IsLastOfType(fields, i)
    ensures fields[i].typeName in RegistryOf(fields)
    ensures RegistryOf(fields)[fields[i].typeName] == fields[i].name
  {
    var init := fields[..|fields| - 1];
    if i < |fields| - 1 {
      assert init[i] == fields[i];
      assert IsLastOfType(init, i) by {
        forall k | i < k < |init| ensures init[k].typeName != init[i].typeName {
          assert init[k] == fields[k];
        }
      }
      RegistryLastWins(init, i);
    }
  }

  /** Every registry entry names the last field declared with that type name. */
  lemma {:induction false} RegistryTarget(fields: seq<Field>, t: string) returns (i: nat)
    requires t in RegistryOf(fields)
    ensures i < |fields| && fields[i].typeName == t && IsLastOfType(fields, i)
    ensures RegistryOf(fields)[t] == fields[i].name
  {
    var last := fields[|fields| - 1];
    var init := fields[..|fields| - 1];
    if last.typeName == t {
      i := |fields| - 1;
    } else {
      i := RegistryTarget(init, t);
      assert fields[i] == init[i];
      forall k | i < k < |fields| ensures fields[k].typeName != t {
        if k < |init| {
          assert fields[k] == init[k];
        }
      }
    }
  }

  /**
   * A field shadowed by a later field of the same type is unreachable: no
   * type name, registered or not, looks up to its name.
   */
  lemma {:induction false} RegistryShadowed(fields: seq<Field>, i: nat, t: string)
    requires WellFormed(fields) && i < |fields| && !IsLastOfType(fields, i)
    ensures Lookup(RegistryOf(fields), t) != fields[i].name
  {
    if t in RegistryOf(fields) {
      var j := RegistryTarget(fields, t);
      if i != j {
        assert fields[i].name != fields[j].name;
      }
    }
  }

  /** The registry depends only on field names and types, never on values. */
  lemma {:induction false} SameShapeRegistry(fields: seq<Field>, fields': seq<Field>)
    requires SameShape(fields, fields')
    ensures RegistryOf(fields) == RegistryOf(fields')
  {
    if |fields| > 0 {
      var n := |fields| - 1;
      assert SameShape(fields[..n], fields'[..n]) by {
        forall i | 0 <= i < n ensures fields[..n][i].(value := fields'[..n][i].value) == fields'[..n][i] {
          assert fields[..n][i] == fields[i] && fields'[..n][i] == fields'[i];
        }
      }
      SameShapeRegistry(fields[..n], fields'[..n]);
      assert fields[n].(value := fields'[n].value) == fields'[n];
    }
  }
}
