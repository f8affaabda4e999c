/**
 * The options provider itself: an object bound to a caller's spec struct,
 * holding the slot-type registry and the set-tracking table.
 */
module Provider {
  import opened Wrappers
  import opened OptionTypes
  import opened Registry
  import opened Assignment
  import opened Export

  /** The caller's spec struct, passed by reference; its fields are updated in place. */
  class Spec {
    var fields: seq<Field>

    constructor (fields: seq<Field>)
      ensures this.fields == fields
    {
      this.fields := fields;
    }
  }

  class OptionsProvider {
    /** The bound spec; the caller keeps a reference to it too. */
    const spec: Spec
    /** Slot-type name to field name, built once by the constructor. */
    const registry: map<string, string>
    /** Field name to "has been set"; only ever records `true`. */
    var setFlags: map<string, bool>

    ghost predicate Valid()
      reads this, spec
    {
      Consistent(Binding(spec.fields, setFlags), registry)
    }

    /**
     * Binds a provider to `spec`: registers each field's type name, in
     * declaration order, and starts with nothing set.
     */
    constructor NewOptions(spec: Spec)
      requires WellFormed(spec.fields)
      ensures Valid()
      ensures this.spec == spec && registry == RegistryOf(spec.fields)
      ensures setFlags == map[]
      ensures forall name :: !IsSet(name)
    {
      var m: map<string, string> := map[];
      for i := 0 to |spec.fields|
        invariant m == RegistryOf(spec.fields[..i])
      {
        var field := spec.fields[i];
        assert spec.fields[..i + 1][..i] == spec.fields[..i];
        m := m[field.typeName := field.name];
      }
      assert spec.fields[..|spec.fields|] == spec.fields;
      this.spec := spec;
      registry := m;
      setFlags := map[];
    }

    /**
     * Assigns each option, in order, to the field registered for its type and
     * marks that field set. The first option that has no `Value` attribute, or
     * whose type has no settable field, stops the loop with that error; the
     * options before it stay applied.
     */
    method Options(opts: seq<OptionValue>) returns (outcome: Outcome)
      requires Valid()
      modifies this, spec
      ensures Valid()
      ensures Run(Binding(spec.fields, setFlags), outcome) ==
        AssignAll(Binding(old(spec.fields), old(setFlags)), registry, opts)
    {
      ghost var start := Binding(spec.fields, setFlags);
      outcome := Applied;
      for i := 0 to |opts|
        invariant Valid()
        invariant AssignAll(start, registry, opts[..i]) == Run(Binding(spec.fields, setFlags), Applied)
      {
        var opt := opts[i];
        assert opts[..i + 1][..i] == opts[..i];
        if opt.value.None? {
          outcome := Failed(i, MissingValue(opt.typeName));
          AssignAllStops(start, registry, opts, i);
          return;
        }
        var fieldName := Lookup(registry, opt.typeName);
        var field := FindField(spec.fields, fieldName);
        if field.None? || !spec.fields[field.value].exported {
          outcome := Failed(i, UnknownOption(opt.typeName));
          AssignAllStops(start, registry, opts, i);
          return;
        }
        AssignOneKeeps(Binding(spec.fields, setFlags), registry, opt);
        spec.fields := spec.fields[field.value := spec.fields[field.value].(value := opt)];
        setFlags := setFlags[fieldName := true];
      }
      assert opts[..|opts|] == opts;
    }

    /** The bound spec itself, not a copy: changes through it are changes to the provider's spec. */
    function Get(): (s: Spec)
      reads this
      ensures s == spec
    {
      spec
    }

    /** Whether field `name` has been assigned; false for every name that is not a field. */
    function IsSet(name: string): (r: bool)
      reads this, spec
      requires Valid()
      ensures r ==> FindField(spec.fields, name).Some?
    {
      IsSetIn(setFlags, name)
    }

    /** The set fields exported under their declared names. */
    method ExportToMap() returns (r: map<string, Payload>)
      requires Valid()
      ensures r == ExportOf(spec.fields, setFlags, "")
      ensures r.Keys == set i | 0 <= i < |spec.fields| && IsSetIn(setFlags, spec.fields[i].name) :: spec.fields[i].name
      ensures forall i :: 0 <= i < |spec.fields| && IsSetIn(setFlags, spec.fields[i].name) ==>
        spec.fields[i].name in r && Some(r[spec.fields[i].name]) == spec.fields[i].value.value
    {
      r := ExportToMapWithTag("");
      forall i | 0 <= i < |spec.fields| && IsSetIn(setFlags, spec.fields[i].name)
        ensures spec.fields[i].name in r && Some(r[spec.fields[i].name]) == spec.fields[i].value.value
      {
        ExportValue(spec.fields, setFlags, "", i);
      }
    }

    /**
     * The set fields, in declaration order, each under its export key for the
     * `tag` namespace, each with its payload.
     */
    method ExportToMapWithTag(tag: string) returns (r: map<string, Payload>)
      requires Valid()
      ensures r == ExportOf(spec.fields, setFlags, tag)
      ensures r.Keys == set i | 0 <= i < |spec.fields| && IsSetIn(setFlags, spec.fields[i].name) :: ExportKey(spec.fields[i], tag)
      ensures forall i :: 0 <= i < |spec.fields| && IsSetIn(setFlags, spec.fields[i].name) && IsLastWithKey(spec.fields, setFlags, tag, i) ==>
        Some(r[ExportKey(spec.fields[i], tag)]) == spec.fields[i].value.value
    {
      var fields := spec.fields;
      r := map[];
      for i := 0 to |fields|
        invariant r == ExportOf(fields[..i], setFlags, tag)
      {
        assert fields[..i + 1][..i] == fields[..i];
        var exportedName := fields[i].name;
        if !IsSet(exportedName) {
          continue;
        }
        if tag != "" {
          var taggedName := TagGet(fields[i], tag);
          if taggedName != "" {
            exportedName := taggedName;
          }
        }
        r := r[exportedName := fields[i].value.value.value];
      }
      assert fields[..|fields|] == fields;
      ExportKeys(fields, setFlags, tag);
      forall i | 0 <= i < |fields| && IsSetIn(setFlags, fields[i].name) && IsLastWithKey(fields, setFlags, tag, i)
        ensures Some(r[ExportKey(fields[i], tag)]) == fields[i].value.value
      {
        ExportValue(fields, setFlags, tag, i);
      }
    }
  }
}
