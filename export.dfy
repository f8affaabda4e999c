/**
 * `ExportToMapWithTag` on values: the set fields, in declaration order, as a
 * map from each field's export key to its payload.
 */
module Export {
  import opened Wrappers
  import opened OptionTypes

  /**
   * The key a field is exported under: its alias in the `tag` namespace when
   * `tag` is non-empty and the alias is non-empty, its declared name otherwise.
   */
  function ExportKey(f: Field, tag: string): string
  {
    if tag != "" && TagGet(f, tag) != "" then TagGet(f, tag) else f.name
  }

  /**
   * The exported map, built field by field in declaration order; unset fields
   * are skipped and a later field overwrites an earlier one with the same key.
   */
  function ExportOf(fields: seq<Field>, flags: map<string, bool>, tag: string): map<string, Payload>
    requires SetFieldsHavePayload(fields, flags)
  {
    if |fields| == 0 then map[]
    else
      var last := fields[|fields| - 1];
      var prev := ExportOf(fields[..|fields| - 1], flags, tag);
      if !IsSetIn(flags, last.name) then prev
      else prev[ExportKey(last, tag) := last.value.value.value]
  }

  /** No set field declared after field `i` is exported under the same key. */
  ghost predicate IsLastWithKey(fields: seq<Field>, flags: map<string, bool>, tag: string, i: nat)
    requires i < |fields|
  {
    forall j :: i < j < |fields| && IsSetIn(flags, fields[j].name) ==> ExportKey(fields[j], tag) != ExportKey(fields[i], tag)
  }

  /** A key is exported exactly when some set field is exported under it. */
  lemma {:induction false} ExportDomain(fields: seq<Field>, flags: map<string, bool>, tag: string, key: string)
    requires SetFieldsHavePayload(fields, flags)
    ensures key in ExportOf(fields, flags, tag) <==>
      exists i :: 0 <= i < |fields| && IsSetIn(flags, fields[i].name) && ExportKey(fields[i], tag) == key
  {
    if |fields| > 0 {
      var init := fields[..|fields| - 1];
      ExportDomain(init, flags, tag, key);
      if key in ExportOf(init, flags, tag) {
        var i :| 0 <= i < |init| && IsSetIn(flags, init[i].name) && ExportKey(init[i], tag) == key;
        assert fields[i] == init[i];
      }
      if exists i :: 0 <= i < |fields| && IsSetIn(flags, fields[i].name) && ExportKey(fields[i], tag) == key {
        var i :| 0 <= i < |fields| && IsSetIn(flags, fields[i].name) && ExportKey(fields[i], tag) == key;
        if i < |init| {
          assert init[i] == fields[i];
        }
      }
    }
  }

  /** The exported keys are exactly the export keys of the set fields. */
  lemma ExportKeys(fields: seq<Field>, flags: map<string, bool>, tag: string)
    requires SetFieldsHavePayload(fields, flags)
    ensures ExportOf(fields, flags, tag).Keys ==
      set i | 0 <= i < |fields| && IsSetIn(flags, fields[i].name) :: ExportKey(fields[i], tag)
  {
  }

  /** A set field that no later set field shares a key with is exported with its own payload. */
  lemma {:induction false} ExportValue(fields: seq<Field>, flags: map<string, bool>, tag: string, i: nat)
    requires SetFieldsHavePayload(fields, flags)
    requires i < |fields| && IsSetIn(flags, fields[i].name) && IsLastWithKey(fields, flags, tag, i)
    ensures ExportKey(fields[i], tag) in ExportOf(fields, flags, tag)
    ensures Some(ExportOf(fields, flags, tag)[ExportKey(fields[i], tag)]) == fields[i].value.value
  {
    var init := fields[..|fields| - 1];
    if i < |fields| - 1 {
      assert init[i] == fields[i];
      assert IsLastWithKey(init, flags, tag, i) by {
        forall j | i < j < |init| && IsSetIn(flags, init[j].name)
          ensures ExportKey(init[j], tag) != ExportKey(init[i], tag)
        {
          assert init[j] == fields[j];
        }
      }
      ExportValue(init, flags, tag, i);
    }
  }
}
