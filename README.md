# options: a typed options container, modelled in Dafny

The Go package `options` binds a caller's *spec* struct to a list of option
values. Each field of the spec has its own *slot type*. An *option* is an
instance of one of those types and carries its payload in a `Value` attribute.
`OptionsProvider` does four things:

- **Registry.** `NewOptions` builds a table from each field's type name to the
  field's name, in declaration order. When two fields share a type, the later
  one wins.
- **Assignment.** `Options` takes the options in order. For each one it finds
  the field registered for the option's type, writes the option into that
  field, and marks the field set. It stops at the first option that has no
  `Value` attribute or has no settable field. Options before that one stay
  applied.
- **Query.** `IsSet` says whether a field name has been assigned. `Get`
  returns the bound spec.
- **Export.** `ExportToMapWithTag` returns a fresh map with one entry per set
  field. The key is the field's name, or its alias in the given tag namespace
  when the namespace and the alias are both non-empty. The value is the field's
  payload. `ExportToMap` is the same export with the empty namespace.

The model replaces Go reflection with explicit descriptors. A spec is a
sequence of `Field` records: name, slot type name, exported flag, struct tags
(namespace to alias) and current value. An option is an `OptionValue` record:
a type name and an optional payload (`None` when the type has no `Value`
attribute).

Files and modules:

- `wrappers.dfy` (`Wrappers`): `Option` and `Result`.
- `option_types.dfy` (`OptionTypes`): the data model, the by-name field
  lookup, and the well-formedness and set-table invariants.
- `registry.dfy` (`Registry`): `RegistryOf`, the registry as a function of the
  fields, and the lemmas that describe it.
- `assignment.dfy` (`Assignment`): `AssignOne` and `AssignAll`, one pass and
  the whole assignment loop as functions, with their lemmas.
- `export.dfy` (`Export`): `ExportKey` and `ExportOf`, with lemmas on the keys
  and values of the export.
- `provider.dfy` (`Provider`): the `Spec` object the caller passes by
  reference, and the `OptionsProvider` class. Its constructor and methods run
  the same loops as the Go code and are proved equal to the functions above.
- `scenario.dfy` (`Scenario`): the package test's spec and options, as lemmas
  and as a client of the class.

The invariant `OptionsProvider.Valid()` (`Assignment.Consistent`) says:

- the spec is well formed: field names are non-empty and distinct, and every
  field holds a value of its own slot type;
- the registry is exactly `RegistryOf` of the spec's fields;
- the set table records only `true`, only for field names, and only for fields
  whose value has a payload.

The constructor establishes it and `Options` keeps it.

Two fields of one slot type are not rejected: the later field wins, as the
doc comment at options.go:13-14 warns, and `Registry.RegistryShadowed` proves
the earlier field unreachable.

## Model

| member | source | states |
|---|---|---|
| OptionTypes.FindField | options.go:56 | A by-name field lookup returns the first field with that name, if there is one; `None` means no field has that name |
| Registry.RegistryDomain | options.go:41-44 | A type name is in the registry exactly when some field of the spec is declared with that type |
| Registry.RegistryLastWins | options.go:41-44 | The registry maps a type name to the name of the last field declared with that type |
| Registry.RegistryTarget | options.go:41-44 | Every registry entry names a field whose type is the key and which no later field of the same type follows |
| Registry.RegistryShadowed | options.go:13-14 | A field followed by a later field of the same type is unreachable: no type name, registered or not, looks up to its name |
| Assignment.AssignOneRegistered | options.go:51-61 | An option whose type's last field is `i` fails with MissingValue when it has no payload, fails with UnknownOption when field `i` is not settable, and otherwise writes field `i` only and marks it set |
| Assignment.AssignOneUnregistered | options.go:52-59 | An option whose type no field has fails, with MissingValue when it has no payload and UnknownOption otherwise, and writes nothing |
| Assignment.AssignOneSuccess | options.go:55-61 | A successful pass had an option with a payload, and wrote it into the settable last field of its type; only that field changed, and only its flag was set |
| Assignment.AssignOneKeeps | options.go:60-61 | A successful pass keeps the provider invariant and the field names, types and tags, and never clears a set flag |
| Assignment.AssignAllKeeps | options.go:50-62 | A batch, whether it succeeds or fails, keeps the provider invariant and the spec's shape, and never clears a set flag |
| Assignment.AssignAllFailure | options.go:50-62 | A batch that fails at option k leaves exactly the state after options 0..k-1, all of which were applied, and option k fails with the reported error |
| Assignment.AssignAllStops | options.go:50-62 | Once a prefix of a batch has failed, the options after it change nothing and the outcome no longer changes |
| Assignment.AssignAllUntouched | options.go:55-61 | A batch leaves the value and the set flag of a field unchanged when the field is shadowed by a later field of its type, or when no option in the batch has its type |
| Assignment.AssignAllLastWrite | options.go:60-61 | After a fully applied batch, the last field of a type holds the last option of that type in the batch, and is marked set |
| Assignment.AssignTwice | options.go:60-61 | Assigning two options of one type leaves the field holding the second and marked set, with nothing else changed |
| Export.ExportDomain | options.go:90-101 | A key is exported exactly when some set field's export key is that key |
| Export.ExportKeys | options.go:90-101 | The exported keys are exactly the export keys of the set fields |
| Export.ExportValue | options.go:101 | A set field that no later set field shares a key with is exported with its own payload |
| Provider.OptionsProvider.NewOptions | options.go:32-46 | The new provider is bound to the given spec, its registry is the fold of the fields in declaration order, nothing is set, and IsSet is false for every name |
| Provider.OptionsProvider.Options | options.go:49-64 | The new fields, set table and outcome are those of the assignment loop on the old fields and set table; the provider invariant is kept |
| Provider.OptionsProvider.Get | options.go:68-70 | Returns the bound spec object itself, not a copy |
| Provider.OptionsProvider.IsSet | options.go:73-75 | A name reported as set is the name of a field of the spec; every other name reads as not set |
| Provider.OptionsProvider.ExportToMapWithTag | options.go:86-104 | The result is the export of the current fields; its keys are exactly the export keys of the set fields; a set field whose key no later set field shares maps to its payload |
| Provider.OptionsProvider.ExportToMap | options.go:78-80 | The export with the empty namespace; its keys are exactly the names of the set fields, each mapped to that field's payload |
| Scenario.WhateverAssign | options_test.go:39-44 | Assigning the test's name and number options to its three-field spec applies both, each to its own field, leaving Num2 untouched |
| Scenario.WhateverExport | options_test.go:45-51 | Exporting the assigned spec under "js" gives exactly {"name", "num"} with the assigned payloads, and without a namespace gives exactly {"Name", "Num"} |
| Scenario.WhateverScenario | options_test.go:39-52 | The test's scenario end to end: assignment succeeds, Name holds the name, Num2 is not set, and the two exports are as above |

## Left out

- Reflection is not modelled. The calls are `reflect.ValueOf`, `Elem`, `Type`, `NumField`, `Field`, `FieldByName`, `Set` and `Interface`. The explicit `Field` and `OptionValue` descriptors stand in for them.
- The pointer guard at options.go:35-38 is not modelled, because it can never fire. A spec that is not a pointer fails inside `v.Elem()` in Go. Here the spec is always an object reference.
- Panic messages are not modelled (`fmt.Sprintf`). Each panic becomes an `AssignError` in the returned `Outcome`. A Go panic aborts the caller, while here the provider stays in the state it had reached. That state is what the Go object holds at the panic.
- Provider.OptionsProvider.Options: returns the batch's `Outcome` rather than the provider itself, so calls are not chained.
- Slot types are identified by name alone. Go would also panic when two different types share a name, such as types from two packages or two unnamed types. That panic comes from `field.Set`, and it is not modelled.
- An option whose type is not a struct makes `FieldByName` panic in Go. The model reports this as MissingValue, since such a type has no `Value` attribute either.
- A nil option also panics at options.go:52, because `reflect.TypeOf(nil)` is a nil type. Like a non-struct option, it corresponds to `OptionValue(_, None)`, which fails with MissingValue. The model has no separate nil value and does not distinguish the two panics.
- `OptionTypes.WellFormed` requires non-empty, distinct field names, which the Go compiler guarantees. Blank `_` fields, which may repeat, are therefore left out. So are fields promoted from embedded structs, which `FieldByName` could also find.
- Export reads `Value` from each set field. Go would panic if that field had no `Value` attribute. The invariant `Valid()` shows this cannot happen, so the model has no error path for it.
- A caller can change the spec directly through `Get`. The provider's methods require `Valid()`, so a change that breaks the invariant is outside the model.
- Payloads are opaque values (`Payload`: text, integer or real). Go's `string`, `int` and `float32` and the caller's type assertions on them are not modelled, and there is no float arithmetic.
- The gocheck harness is not modelled (options_test.go:4-37). Its one test appears as the `Scenario` lemmas and the `Scenario.TestOptions` client.
- Concurrency is not modelled. The package is single-threaded.
