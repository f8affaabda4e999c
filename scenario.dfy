/**
 * The package's test scenario: a spec with three options tagged for the "js"
 * namespace, two of them assigned.
 */
module Scenario {
  import opened Wrappers
  import opened OptionTypes
  import opened Registry
  import opened Assignment
  import opened Export
  import opened Provider

  /** The test's spec struct, each field at its Go zero value. */
  function WhateverFields(): seq<Field>
  {
    [ Field("Name", "WhateverName", true, map["js" := "name"], OptionValue("WhateverName", Some(Text("")))),
      Field("Num", "WhateverNum", true, map["js" := "num"], OptionValue("WhateverNum", Some(Int(0)))),
      Field("Num2", "WhateverNum2", true, map["js" := "num2"], OptionValue("WhateverNum2", Some(Float(0.0)))) ]
  }

  /** The options the test passes: a name and a number. */
  function WhateverOptions(name: string, num: int): seq<OptionValue>
  {
    [OptionValue("WhateverName", Some(Text(name))), OptionValue("WhateverNum", Some(Int(num)))]
  }

  /** The test's spec after the name and the number have been assigned. */
  function WhateverAssigned(name: string, num: int): Binding
  {
    var fields := WhateverFields();
    Binding(
      [fields[0].(value := OptionValue("WhateverName", Some(Text(name)))),
       fields[1].(value := OptionValue("WhateverNum", Some(Int(num)))),
       fields[2]],
      map["Name" := true, "Num" := true])
  }

  /** Both options are applied, each to its own field. */
  lemma WhateverAssign(name: string, num: int)
    ensures var fields := WhateverFields();
      AssignAll(Binding(fields, map[]), RegistryOf(fields), WhateverOptions(name, num)) == Run(WhateverAssigned(name, num), Applied)
  {
    var fields := WhateverFields();
    var opts := WhateverOptions(name, num);
    assert opts[..1][..0] == [] && opts[..|opts| - 1] == opts[..1];
    RegistryLastWins(fields, 0);
    RegistryLastWins(fields, 1);
    var b1 := Binding(fields[0 := fields[0].(value := opts[0])], map["Name" := true]);
    assert AssignAll(Binding(fields, map[]), RegistryOf(fields), opts[..1]) == Run(b1, Applied);
  }

  /** Exporting the assigned spec, under "js" and under no namespace. */
  lemma WhateverExport(name: string, num: int)
    ensures SetFieldsHavePayload(WhateverAssigned(name, num).fields, WhateverAssigned(name, num).flags)
    ensures ExportOf(WhateverAssigned(name, num).fields, WhateverAssigned(name, num).flags, "js") ==
      map["name" := Text(name), "num" := Int(num)]
    ensures ExportOf(WhateverAssigned(name, num).fields, WhateverAssigned(name, num).flags, "") ==
      map["Name" := Text(name), "Num" := Int(num)]
  {
    var b := WhateverAssigned(name, num);
    var f := b.fields;
    assert f[..|f| - 1] == f[..2] && f[..2][..1] == f[..1] && f[..1][..0] == [];
    assert ExportOf(f[..1], b.flags, "js") == map["name" := Text(name)];
    assert ExportOf(f[..1], b.flags, "") == map["Name" := Text(name)];
  }

  /**
   * Assigning a name and a number succeeds; the spec's Name field holds the
   * name; exporting under "js" gives exactly "name" and "num", with no "num2";
   * Num2 is not set; and the default export uses the declared field names.
   */
  lemma WhateverScenario(name: string, num: int)
    ensures var fields := WhateverFields();
      var r := AssignAll(Binding(fields, map[]), RegistryOf(fields), WhateverOptions(name, num));
      r.outcome == Applied &&
      r.binding.fields[0].value.value == Some(Text(name)) &&
      !IsSetIn(r.binding.flags, "Num2") &&
      SetFieldsHavePayload(r.binding.fields, r.binding.flags) &&
      ExportOf(r.binding.fields, r.binding.flags, "js") == map["name" := Text(name), "num" := Int(num)] &&
      ExportOf(r.binding.fields, r.binding.flags, "") == map["Name" := Text(name), "Num" := Int(num)]
  {
    WhateverAssign(name, num);
    WhateverExport(name, num);
  }

  /** The test's spec struct is one the Go compiler accepts. */
  lemma WhateverWellFormed()
    ensures WellFormed(WhateverFields())
  {
  }

  /** The same scenario driven through the provider object, as the test does. */
  method TestOptions()
  {
    var name, num := "n0t9r34t6cz...", 999999;
    WhateverWellFormed();
    var spec := new Spec(WhateverFields());
    var opts := new OptionsProvider.NewOptions(spec);
    var batch := WhateverOptions(name, num);
    var outcome := opts.Options(batch);
    WhateverAssign(name, num);
    assert outcome == Applied;
    assert Binding(spec.fields, opts.setFlags) == WhateverAssigned(name, num);
    var m := opts.ExportToMapWithTag("js");
    WhateverExport(name, num);
    assert m == map["name" := Text(name), "num" := Int(num)];
    assert "num2" !in m;
    assert opts.Get().fields[0].value.value == Some(Text(name));
    assert !opts.IsSet("Num2");
  }
}
