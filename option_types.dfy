/**
 * The values the options provider works on. Go reflection over the caller's
 * spec struct is replaced by an explicit descriptor: the spec is a sequence of
 * fields in declaration order, and an option is a record naming its type.
 */
module OptionTypes {
  import opened Wrappers

  /** What an option carries in its `Value` attribute. The provider never looks inside it. */
  datatype Payload = Text(s: string) | Int(n: int) | Float(x: real)

  /**
   * An option value: an instance of a slot type, identified by the type's name.
   * `value` is `None` when the slot type has no `Value` attribute.
   */
  datatype OptionValue = OptionValue(typeName: string, value: Option<Payload>)

  /**
   * One field of a spec struct: its name, the name of its declared slot type,
   * whether it is exported (only exported fields are settable through
   * reflection), its struct tags (namespace to alias) and its current value.
   */
  datatype Field = Field(
    name: string,
    typeName: string,
    exported: bool,
    tags: map<string, string>,
    value: OptionValue)

  /** The alias a field carries under a tag namespace; "" when it has none. */
  function TagGet(f: Field, tag: string): string
  {
    if tag in f.tags then f.tags[tag] else ""
  }

  /** The field a by-name lookup finds: the first one declared with that name. */
  function FindField(fields: seq<Field>, name: string): (r: Option<nat>)
    ensures r.Some? ==> r.value < |fields| && fields[r.value].name == name
    ensures r.Some? ==> forall j :: 0 <= j < r.value ==> fields[j].name != name
    ensures r.None? ==> forall j :: 0 <= j < |fields| ==> fields[j].name != name
  {
    if |fields| == 0 then None
    else if fields[0].name == name then Some(0)
    else match FindField(fields[1..], name)
      case None => None
      case Some(k) => Some(k + 1)
  }

  /** Whether a set-tracking table records `name` as set; a missing entry reads as false. */
  function IsSetIn(flags: map<string, bool>, name: string): bool
  {
    name in flags && flags[name]
  }

  /**
   * What the Go compiler guarantees of a struct: field names are non-empty and
   * distinct. A field also holds a value of its own declared type.
   */
  ghost predicate WellFormed(fields: seq<Field>)
  {
    (forall i, j :: 0 <= i < j < |fields| ==> fields[i].name != fields[j].name) &&
    (forall i :: 0 <= i < |fields| ==> fields[i].name != "" && fields[i].value.typeName == fields[i].typeName)
  }

  /** Two field sequences that differ at most in the values the fields hold. */
  ghost predicate SameShape(fields: seq<Field>, fields': seq<Field>)
  {
    |fields| == |fields'| &&
    forall i :: 0 <= i < |fields| ==> fields[i].(value := fields'[i].value) == fields'[i]
  }

  /** No field declared after field `i` has the same slot type. */
  ghost predicate IsLastOfType(fields: seq<Field>, i: nat)
    requires i < |fields|
  {
    forall k :: i < k < |fields| ==> fields[k].typeName != fields[i].typeName
  }

  /** Every field marked set holds an option that has a `Value` attribute. */
  ghost predicate SetFieldsHavePayload(fields: seq<Field>, flags: map<string, bool>)
  {
    forall i :: 0 <= i < |fields| && IsSetIn(flags, fields[i].name) ==> fields[i].value.value.Some?
  }

  /**
   * The set-tracking table only ever records `true`, only for names of fields,
   * and only for fields that hold a payload.
   */
  ghost predicate FlagsSound(fields: seq<Field>, flags: map<string, bool>)
  {
    (forall n :: n in flags ==> flags[n] && FindField(fields, n).Some?) &&
    SetFieldsHavePayload(fields, flags)
  }

  /** In a well-formed spec a field's own name finds that field. */
  lemma FindFieldOf(fields: seq<Field>, i: nat)
    requires WellFormed(fields) && i < |fields|
    ensures FindField(fields, fields[i].name) == Some(i)
  {
  }

  /** A by-name lookup sees only names, so it cannot tell two same-shaped specs apart. */
  lemma SameShapeFind(fields: seq<Field>, fields': seq<Field>, name: string)
    requires SameShape(fields, fields')
    ensures FindField(fields, name) == FindField(fields', name)
  {
  }
}
