/**
 * The assignment loop of `OptionsProvider.Options`, on values: each option is
 * matched to the field registered for its type, written there, and the field
 * is marked set. A failing option stops the loop; earlier options stay applied.
 */
module Assignment {
  import opened Wrappers
  import opened OptionTypes
  import opened Registry

  /** The state an assignment changes: the spec's fields and the set-tracking table. */
  datatype Binding = Binding(fields: seq<Field>, flags: map<string, bool>)

  /** Why an option could not be assigned. */
  datatype AssignError =
    | MissingValue(typeName: string)   // the option's type has no `Value` attribute
    | UnknownOption(typeName: string)  // no settable field is registered for the option's type

  /** How a batch of options ended: all applied, or stopped at option `index`. */
  datatype Outcome = Applied | Failed(index: nat, error: AssignError)

  /** The state after a batch together with how the batch ended. */
  datatype Run = Run(binding: Binding, outcome: Outcome)

  /** The invariant of a provider: a well-formed spec, its own registry, and a sound set table. */
  ghost predicate Consistent(b: Binding, registry: map<string, string>)
  {
    WellFormed(b.fields) && registry == RegistryOf(b.fields) && FlagsSound(b.fields, b.flags)
  }

  /** One pass of the assignment loop, for one option. */
  function AssignOne(b: Binding, registry: map<string, string>, opt: OptionValue): Result<Binding, AssignError>
  {
    if opt.value.None? then Failure(MissingValue(opt.typeName))
    else
      var name := Lookup(registry, opt.typeName);
      match FindField(b.fields, name)
      case None => Failure(UnknownOption(opt.typeName))
      case Some(i) =>
        if !b.fields[i].exported then Failure(UnknownOption(opt.typeName))
        else Success(Binding(b.fields[i := b.fields[i].(value := opt)], b.flags[name := true]))
  }

  /** A whole batch, in order, stopping at the first option that fails. */
  function AssignAll(b: Binding, registry: map<string, string>, opts: seq<OptionValue>): Run
  {
    if |opts| == 0 then Run(b, Applied)
    else
      var prev := AssignAll(b, registry, opts[..|opts| - 1]);
      if prev.outcome.Failed? then prev
      else match AssignOne(prev.binding, registry, opts[|opts| - 1])
        case Failure(e) => Run(prev.binding, Failed(|opts| - 1, e))
        case Success(b') => Run(b', Applied)
  }

  /**
   * An option of a type whose last field is `i`: it fails with MissingValue
   * when it has no payload, with UnknownOption when field `i` is not settable,
   * and otherwise writes field `i` alone and marks it set.
   */
  lemma AssignOneRegistered(b: Binding, registry: map<string, string>, opt: OptionValue, i: nat)
    requires WellFormed(b.fields) && registry == RegistryOf(b.fields)
    requires i < |b.fields| && b.fields[i].typeName == opt.typeName && IsLastOfType(b.fields, i)
    ensures AssignOne(b, registry, opt) ==
      if opt.value.None? then Failure(MissingValue(opt.typeName))
      else if !b.fields[i].exported then Failure(UnknownOption(opt.typeName))
      else Success(Binding(b.fields[i := b.fields[i].(value := opt)], b.flags[b.fields[i].name := true]))
  {
    RegistryLastWins(b.fields, i);
    FindFieldOf(b.fields, i);
  }

  /** An option whose type no field is declared with always fails, and changes nothing. */
  lemma AssignOneUnregistered(b: Binding, registry: map<string, string>, opt: OptionValue)
    requires WellFormed(b.fields) && registry == RegistryOf(b.fields)
    requires forall i :: 0 <= i < |b.fields| ==> b.fields[i].typeName != opt.typeName
    ensures AssignOne(b, registry, opt) ==
      Failure(if opt.value.None? then MissingValue(opt.typeName) else UnknownOption(opt.typeName))
  {
    RegistryDomain(b.fields, opt.typeName);
  }

  /**
   * A successful pass wrote the last field declared with the option's type,
   * which is settable, and nothing else.
   */
  lemma AssignOneSuccess(b: Binding, registry: map<string, string>, opt: OptionValue) returns (i: nat)
    requires WellFormed(b.fields) && registry == RegistryOf(b.fields)
    requires AssignOne(b, registry, opt).Success?
    ensures i < |b.fields| && b.fields[i].typeName == opt.typeName && IsLastOfType(b.fields, i)
    ensures b.fields[i].exported && opt.value.Some?
    ensures AssignOne(b, registry, opt).value ==
      Binding(b.fields[i := b.fields[i].(value := opt)], b.flags[b.fields[i].name := true])
  {
    if opt.typeName in registry {
      i := RegistryTarget(b.fields, opt.typeName);
      AssignOneRegistered(b, registry, opt, i);
    } else {
      RegistryDomain(b.fields, opt.typeName);
      AssignOneUnregistered(b, registry, opt);
    }
  }

  /** A successful pass keeps the provider invariant, the spec's shape, and every set flag. */
  lemma AssignOneKeeps(b: Binding, registry: map<string, string>, opt: OptionValue)
    requires Consistent(b, registry)
    requires AssignOne(b, registry, opt).Success?
    ensures Consistent(AssignOne(b, registry, opt).value, registry)
    ensures SameShape(b.fields, AssignOne(b, registry, opt).value.fields)
    ensures forall n :: IsSetIn(b.flags, n) ==> IsSetIn(AssignOne(b, registry, opt).value.flags, n)
  {
    var i := AssignOneSuccess(b, registry, opt);
    var b' := AssignOne(b, registry, opt).value;
    assert SameShape(b.fields, b'.fields);
    SameShapeRegistry(b.fields, b'.fields);
    assert WellFormed(b'.fields);
    forall n | n in b'.flags ensures b'.flags[n] && FindField(b'.fields, n).Some? {
      SameShapeFind(b.fields, b'.fields, n);
      if n == b.fields[i].name {
        FindFieldOf(b.fields, i);
      }
    }
    assert SetFieldsHavePayload(b'.fields, b'.flags) by {
      forall j | 0 <= j < |b'.fields| && IsSetIn(b'.flags, b'.fields[j].name)
        ensures b'.fields[j].value.value.Some?
      {
        if j != i {
          assert b'.fields[j] == b.fields[j];
          assert b.fields[j].name != b.fields[i].name;
        }
      }
    }
  }

  /** A batch keeps the provider invariant, the spec's shape, and every set flag. */
  lemma {:induction false} AssignAllKeeps(b: Binding, registry: map<string, string>, opts: seq<OptionValue>)
    requires Consistent(b, registry)
    ensures Consistent(AssignAll(b, registry, opts).binding, registry)
    ensures SameShape(b.fields, AssignAll(b, registry, opts).binding.fields)
    ensures forall n :: IsSetIn(b.flags, n) ==> IsSetIn(AssignAll(b, registry, opts).binding.flags, n)
  {
    if |opts| > 0 {
      var init := opts[..|opts| - 1];
      AssignAllKeeps(b, registry, init);
      var prev := AssignAll(b, registry, init);
      if prev.outcome.Applied? && AssignOne(prev.binding, registry, opts[|opts| - 1]).Success? {
        AssignOneKeeps(prev.binding, registry, opts[|opts| - 1]);
      }
    }
  }

  /**
   * No rollback: a batch that fails at option `k` leaves exactly the state
   * reached by applying options 0..k-1, every one of which was applied, and
   * option `k` itself is the one that fails with that error.
   */
  lemma {:induction false} AssignAllFailure(b: Binding, registry: map<string, string>, opts: seq<OptionValue>)
    requires AssignAll(b, registry, opts).outcome.Failed?
    ensures var r := AssignAll(b, registry, opts);
      r.outcome.index < |opts| &&
      AssignAll(b, registry, opts[..r.outcome.index]) == Run(r.binding, Applied) &&
      AssignOne(r.binding, registry, opts[r.outcome.index]) == Failure(r.outcome.error)
  {
    var init := opts[..|opts| - 1];
    var prev := AssignAll(b, registry, init);
    if prev.outcome.Failed? {
      AssignAllFailure(b, registry, init);
      var k := prev.outcome.index;
      assert init[..k] == opts[..k];
      assert init[k] == opts[k];
    } else {
      assert opts[..|opts| - 1] == init;
    }
  }

  /** Once a prefix of a batch has failed, the options after it are never looked at. */
  lemma {:induction false} AssignAllStops(b: Binding, registry: map<string, string>, opts: seq<OptionValue>, k: nat)
    requires k < |opts| && AssignAll(b, registry, opts[..k + 1]).outcome.Failed?
    ensures AssignAll(b, registry, opts) == AssignAll(b, registry, opts[..k + 1])
  {
    if k + 1 < |opts| {
      var init := opts[..|opts| - 1];
      assert init[..k + 1] == opts[..k + 1];
      AssignAllStops(b, registry, init, k);
    } else {
      assert opts[..k + 1] == opts;
    }
  }

  /**
   * A batch leaves alone every field it cannot reach: one shadowed by a later
   * field of the same type, or one whose type no option in the batch has.
   * Its value and its set flag are unchanged.
   */
  lemma {:induction false} AssignAllUntouched(b: Binding, registry: map<string, string>, opts: seq<OptionValue>, j: nat)
    requires Consistent(b, registry) && j < |b.fields|
    requires !IsLastOfType(b.fields, j) || forall k :: 0 <= k < |opts| ==> opts[k].typeName != b.fields[j].typeName
    ensures j < |AssignAll(b, registry, opts).binding.fields|
    ensures AssignAll(b, registry, opts).binding.fields[j] == b.fields[j]
    ensures IsSetIn(AssignAll(b, registry, opts).binding.flags, b.fields[j].name) == IsSetIn(b.flags, b.fields[j].name)
  {
    AssignAllKeeps(b, registry, opts);
    if |opts| > 0 {
      var init := opts[..|opts| - 1];
      var opt := opts[|opts| - 1];
      AssignAllUntouched(b, registry, init, j);
      AssignAllKeeps(b, registry, init);
      var prev := AssignAll(b, registry, init);
      if prev.outcome.Applied? && AssignOne(prev.binding, registry, opt).Success? {
        var i := AssignOneSuccess(prev.binding, registry, opt);
        assert i != j;
        assert prev.binding.fields[i].name != prev.binding.fields[j].name;
      }
    }
  }

  /**
   * Round trip and overwrite: after a batch that was applied in full, the last
   * field declared with a type holds the last option of that type in the
   * batch, and is marked set.
   */
  lemma {:induction false} AssignAllLastWrite(b: Binding, registry: map<string, string>, opts: seq<OptionValue>, k: nat, j: nat)
    requires Consistent(b, registry) && AssignAll(b, registry, opts).outcome.Applied?
    requires k < |opts| && j < |b.fields|
    requires b.fields[j].typeName == opts[k].typeName && IsLastOfType(b.fields, j)
    requires forall k' :: k < k' < |opts| ==> opts[k'].typeName != opts[k].typeName
    ensures j < |AssignAll(b, registry, opts).binding.fields|
    ensures AssignAll(b, registry, opts).binding.fields[j].value == opts[k]
    ensures IsSetIn(AssignAll(b, registry, opts).binding.flags, b.fields[j].name)
  {
    var init := opts[..|opts| - 1];
    var opt := opts[|opts| - 1];
    AssignAllKeeps(b, registry, init);
    var prev := AssignAll(b, registry, init);
    var pf := prev.binding.fields;
    assert pf[j].typeName == b.fields[j].typeName && pf[j].name == b.fields[j].name;
    assert IsLastOfType(pf, j) by {
      forall k' | j < k' < |pf| ensures pf[k'].typeName != pf[j].typeName {
        assert pf[k'].typeName == b.fields[k'].typeName;
      }
    }
    if k == |opts| - 1 {
      AssignOneRegistered(prev.binding, registry, opt, j);
    } else {
      assert init[k] == opts[k];
      AssignAllLastWrite(b, registry, init, k, j);
      var i := AssignOneSuccess(prev.binding, registry, opt);
      assert i != j;
      assert pf[i].name != pf[j].name;
    }
  }

  /**
   * Assigning the same type twice leaves its field holding the second option,
   * still marked set, and changes nothing else.
   */
  lemma AssignTwice(b: Binding, registry: map<string, string>, first: OptionValue, second: OptionValue, j: nat)
    requires WellFormed(b.fields) && registry == RegistryOf(b.fields)
    requires j < |b.fields| && IsLastOfType(b.fields, j) && b.fields[j].exported
    requires first.typeName == b.fields[j].typeName && second.typeName == b.fields[j].typeName
    requires first.value.Some? && second.value.Some?
    ensures AssignAll(b, registry, [first, second]) ==
      Run(Binding(b.fields[j := b.fields[j].(value := second)], b.flags[b.fields[j].name := true]), Applied)
  {
    var opts := [first, second];
    assert opts[..1][..0] == [];
    AssignOneRegistered(b, registry, first, j);
    var b1 := Binding(b.fields[j := b.fields[j].(value := first)], b.flags[b.fields[j].name := true]);
    assert AssignAll(b, registry, opts[..1]) == Run(b1, Applied);
    assert SameShape(b.fields, b1.fields);
    SameShapeRegistry(b.fields, b1.fields);
    assert WellFormed(b1.fields);
    assert IsLastOfType(b1.fields, j);
    AssignOneRegistered(b1, registry, second, j);
    assert opts[..|opts| - 1] == opts[..1];
    assert b1.fields[j := b1.fields[j].(value := second)] == b.fields[j := b.fields[j].(value := second)];
  }
}
