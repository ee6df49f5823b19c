/**
  The configuration-time and value-level logic of the select field
  (packages/core/src/fields/types/select/index.ts): option normalisation,
  the duplicate-option and 32-bit range checks that reject a configuration,
  the validate hook, create-time defaulting, the admin metadata and the
  database index and default.

  Option values and item values are JavaScript values (`Json.Value`);
  set membership is value equality, which is what `Set.has` does for the
  strings and numbers an option may hold.
*/
module SelectField {
  import opened Json

  /** The lowest and highest values of a signed 32-bit integer. */
  const MinInt: int := -2147483648
  const MaxInt: int := 2147483647

  /** An entry of `config.options`: a bare string, or a `{ label, value }` object (`title` is its `label`). */
  datatype RawOption = Plain(name: string) | Labelled(title: string, value: Value)

  datatype SelectOption = SelectOption(title: string, value: Value)

  /** `config.type`: `'string'`, `'enum'` or `'integer'`. */
  datatype SelectType = StringType | EnumType | IntegerType

  datatype DisplayMode = SelectMode | SegmentedControl | Radio

  /** `config.isIndexed`: `true`, `'unique'`, or `false`/absent. */
  datatype IndexSetting = NotIndexed | Indexed | Unique

  /** The database index kind: `'index'` or `'unique'`. */
  datatype IndexKind = PlainIndex | UniqueIndex

  /**
    The parts of a select field's configuration this logic reads. An absent
    `defaultValue` is `Undefined`; an absent `type` or display mode is `None`.
  */
  datatype SelectConfig = SelectConfig(
    options: seq<RawOption>,
    selectType: Option<SelectType>,
    defaultValue: Value,
    displayMode: Option<DisplayMode>,
    isIndexed: IndexSetting)

  /** The result of initialisation: the normalised options, or the error it throws. */
  datatype Outcome = Initialised(options: seq<SelectOption>) | Rejected(message: string)

  // ---------------------------------------------------------------------
  // Options

  function NormaliseOption(o: RawOption, humanize: string -> string): SelectOption
  {
    match o
    case Plain(s) => SelectOption(humanize(s), Str(s))
    case Labelled(l, v) => SelectOption(l, v)
  }

  /**
    A bare string `s` becomes `{ label: humanize(s), value: s }`; an object
    is kept as it is; order and count are preserved. `humanize` is the
    label-formatting helper of the runtime.
  */
  function Normalise(raw: seq<RawOption>, humanize: string -> string): (opts: seq<SelectOption>)
    ensures |opts| == |raw|
    ensures forall i :: 0 <= i < |raw| && raw[i].Plain? ==>
              opts[i] == SelectOption(humanize(raw[i].name), Str(raw[i].name))
    ensures forall i :: 0 <= i < |raw| && raw[i].Labelled? ==>
              opts[i] == SelectOption(raw[i].title, raw[i].value)
  {
    if |raw| == 0 then [] else [NormaliseOption(raw[0], humanize)] + Normalise(raw[1..], humanize)
  }

  function Values(opts: seq<SelectOption>): (vs: seq<Value>)
    ensures |vs| == |opts|
    ensures forall i :: 0 <= i < |opts| ==> vs[i] == opts[i].value
  {
    if |opts| == 0 then [] else [opts[0].value] + Values(opts[1..])
  }

  /** `new Set(values)`. */
  function Elements(vs: seq<Value>): (s: set<Value>)
    ensures forall x :: x in s <==> x in vs
  {
    if |vs| == 0 then {} else {vs[0]} + Elements(vs[1..])
  }

  /** No value occurs twice. */
  predicate Distinct(vs: seq<Value>)
  {
    forall i, j :: 0 <= i < j < |vs| ==> vs[i] != vs[j]
  }

  /** A list is free of repeats exactly when its head is not repeated and its tail is free of repeats. */
  lemma DistinctCons(vs: seq<Value>)
    requires |vs| > 0
    ensures Distinct(vs) <==> vs[0] !in vs[1..] && Distinct(vs[1..])
  {
    if Distinct(vs) {
      forall i, j | 0 <= i < j < |vs[1..]|
        ensures vs[1..][i] != vs[1..][j]
      {
        assert vs[1..][i] == vs[i + 1] && vs[1..][j] == vs[j + 1];
      }
    }
    if vs[0] in vs[1..] {
      var k :| 0 <= k < |vs[1..]| && vs[1..][k] == vs[0];
      assert vs[0] == vs[k + 1];
    }
    if vs[0] !in vs[1..] && Distinct(vs[1..]) {
      forall i, j | 0 <= i < j < |vs|
        ensures vs[i] != vs[j]
      {
        if i > 0 {
          assert vs[i] == vs[1..][i - 1] && vs[j] == vs[1..][j - 1];
        } else {
          assert vs[j] == vs[1..][j - 1];
        }
      }
    }
  }

  /** Adding a head value grows the set by one exactly when the head is new. */
  lemma ElementsCons(vs: seq<Value>)
    requires |vs| > 0
    ensures vs[0] in vs[1..] ==> |Elements(vs)| == |Elements(vs[1..])|
    ensures vs[0] !in vs[1..] ==> |Elements(vs)| == |Elements(vs[1..])| + 1
  {
    var rest := Elements(vs[1..]);
    assert Elements(vs) == {vs[0]} + rest;
    if vs[0] in vs[1..] {
      assert vs[0] in rest;
      assert {vs[0]} + rest == rest;
    } else {
      assert vs[0] !in rest;
    }
  }

  /** The set of values is as large as the list exactly when no value repeats. */
  lemma {:induction false} DistinctIffSizes(vs: seq<Value>)
    ensures |Elements(vs)| <= |vs|
    ensures |Elements(vs)| == |vs| <==> Distinct(vs)
  {
    if |vs| > 0 {
      DistinctIffSizes(vs[1..]);
      DistinctCons(vs);
      ElementsCons(vs);
    }
  }

  /**
    What the range check reads from a raw option: its `value`, which is
    `undefined` for a bare string.
  */
  function RawValue(o: RawOption): Value
  {
    if o.Labelled? then o.value else Undefined
  }

  /** `Number.isInteger(v)` and the value lies within the signed 32-bit range. */
  predicate IsInt32(v: Value)
  {
    v.Num? && v.n == v.n.Floor as real && MinInt <= v.n.Floor <= MaxInt
  }

  /** `options.some(o => !isInt32(o.value))` over the raw options. */
  function SomeOutOfRange(raw: seq<RawOption>): (r: bool)
    ensures r <==> exists i :: 0 <= i < |raw| && !IsInt32(RawValue(raw[i]))
  {
    if |raw| == 0 then false
    else if !IsInt32(RawValue(raw[0])) then true
    else
      var r := SomeOutOfRange(raw[1..]);
      assert forall i :: 1 <= i < |raw| ==> raw[i] == raw[1..][i - 1];
      r
  }

  function DuplicateMessage(listKey: string, fieldKey: string): string
  {
    listKey + "." + fieldKey + ": duplicate options, this is not allowed"
  }

  function RangeMessage(listKey: string, fieldKey: string): string
  {
    listKey + "." + fieldKey + " specifies integer values that are outside the range of a 32-bit signed integer"
  }

  /**
    Field initialisation: normalise the options, refuse duplicate values,
    then, for an integer field, refuse any option that is not a signed 32-bit
    integer. The duplicate check comes first.
  */
  function Initialise(config: SelectConfig, listKey: string, fieldKey: string, humanize: string -> string)
    : (r: Outcome)
    ensures r.Initialised? <==>
              Distinct(Values(Normalise(config.options, humanize)))
              && (config.selectType == Some(IntegerType) ==>
                    forall i :: 0 <= i < |config.options| ==> IsInt32(RawValue(config.options[i])))
    ensures r.Initialised? ==> r.options == Normalise(config.options, humanize)
    ensures !Distinct(Values(Normalise(config.options, humanize))) ==>
              r == Rejected(DuplicateMessage(listKey, fieldKey))
    ensures Distinct(Values(Normalise(config.options, humanize))) && r.Rejected? ==>
              config.selectType == Some(IntegerType) && r == Rejected(RangeMessage(listKey, fieldKey))
  {
    var options := Normalise(config.options, humanize);
    var accepted := Elements(Values(options));
    DistinctIffSizes(Values(options));
    if |accepted| != |options| then Rejected(DuplicateMessage(listKey, fieldKey))
    else if config.selectType == Some(IntegerType) && SomeOutOfRange(config.options) then
      Rejected(RangeMessage(listKey, fieldKey))
    else Initialised(options)
  }

  // ---------------------------------------------------------------------
  // Values

  datatype Operation = CreateOp | UpdateOp | DeleteOp

  const NotAcceptedMessage: string := "value is not an accepted option"

  /** `value != null`: neither `null` nor `undefined`. */
  predicate IsPresent(v: Value)
  {
    v != Null && v != Undefined
  }

  /**
    The validate hook: the errors it adds for the resolved value of the
    field. A delete is never checked; otherwise a present value must be one
    of the option values.
  */
  function ValidateHook(options: seq<SelectOption>, operation: Operation, resolvedData: Value, fieldKey: string)
    : (errors: seq<string>)
    ensures errors == [] || errors == [NotAcceptedMessage]
    ensures errors == [] <==>
              operation == DeleteOp
              || !IsPresent(Get(resolvedData, fieldKey))
              || exists i :: 0 <= i < |options| && options[i].value == Get(resolvedData, fieldKey)
  {
    var accepted := Elements(Values(options));
    if operation == DeleteOp then []
    else
      var value := Get(resolvedData, fieldKey);
      if IsPresent(value) && value !in accepted then [NotAcceptedMessage] else []
  }

  /** `x ?? null`. */
  function OrNull(v: Value): Value
  {
    if v == Undefined then Null else v
  }

  /**
    `resolveCreate`: an omitted value takes the configured default, or null
    when there is none; any given value, `null` included, is kept.
  */
  function ResolveCreate(defaultValue: Value, val: Value): (r: Value)
    ensures r != Undefined
    ensures val != Undefined ==> r == val
    ensures val == Undefined && IsPresent(defaultValue) ==> r == defaultValue
    ensures val == Undefined && !IsPresent(defaultValue) ==> r == Null
  {
    if val == Undefined then OrNull(defaultValue) else val
  }

  /** Resolving twice changes nothing: the first pass never leaves the value omitted. */
  lemma ResolveCreateIdempotent(defaultValue: Value, val: Value)
    ensures ResolveCreate(defaultValue, ResolveCreate(defaultValue, val)) == ResolveCreate(defaultValue, val)
  {
  }

  /**
    Writing value `v` to the field is accepted exactly when the operation is
    a delete, `v` is absent or null, or `v` is one of the option values; in
    particular every option of an initialised field is accepted.
  */
  lemma OptionsAccepted(options: seq<SelectOption>, operation: Operation, fieldKey: string, v: Value)
    ensures ValidateHook(options, operation, Single(fieldKey, v), fieldKey) == [] <==>
              operation == DeleteOp || !IsPresent(v) || v in Values(options)
  {
    var vs := Values(options);
    if v in vs {
      var i :| 0 <= i < |vs| && vs[i] == v;
      assert options[i].value == v;
    }
  }

  // ---------------------------------------------------------------------
  // Admin metadata and database configuration

  datatype AdminMeta = AdminMeta(options: seq<SelectOption>, selectType: SelectType, displayMode: DisplayMode,
                                 defaultValue: Value)

  /** `getAdminMeta`: the options, and the type, display mode and default with their fallbacks. */
  function GetAdminMeta(config: SelectConfig, options: seq<SelectOption>): (m: AdminMeta)
    ensures m.options == options
    ensures config.selectType.None? ==> m.selectType == StringType
    ensures config.selectType.Some? ==> m.selectType == config.selectType.value
    ensures config.displayMode.None? ==> m.displayMode == SelectMode
    ensures config.displayMode.Some? ==> m.displayMode == config.displayMode.value
    ensures m.defaultValue != Undefined
    ensures config.defaultValue != Undefined ==> m.defaultValue == config.defaultValue
  {
    AdminMeta(
      options,
      if config.selectType.Some? then config.selectType.value else StringType,
      if config.displayMode.Some? then config.displayMode.value else SelectMode,
      OrNull(config.defaultValue))
  }

  /** The database index: `true` gives an index, `'unique'` a unique index, anything else none. */
  function DbIndex(isIndexed: IndexSetting): (r: Option<IndexKind>)
    ensures r == None <==> isIndexed == NotIndexed
    ensures r == Some(UniqueIndex) <==> isIndexed == Unique
  {
    match isIndexed
    case Indexed => Some(PlainIndex)
    case Unique => Some(UniqueIndex)
    case NotIndexed => None
  }

  /** The field can be used in a unique `where` exactly when it is uniquely indexed. */
  function HasUniqueWhere(isIndexed: IndexSetting): (r: bool)
    ensures r <==> DbIndex(isIndexed) == Some(UniqueIndex)
  {
    isIndexed == Unique
  }

  /** The database default: a literal of the configured default, when one is given (`null` included). */
  function DbDefault(defaultValue: Value): (r: Option<Value>)
    ensures r.Some? <==> defaultValue != Undefined
    ensures r.Some? ==> r.value == defaultValue
  {
    if defaultValue == Undefined then None else Some(defaultValue)
  }

  /**
    The default of the GraphQL create argument: the configured default when
    its kind matches the field (a number for an integer field, a string
    otherwise).
  */
  function CreateArgDefault(selectType: Option<SelectType>, defaultValue: Value): (r: Option<Value>)
    ensures r.Some? ==> r.value == defaultValue
    ensures selectType == Some(IntegerType) ==> (r.Some? <==> defaultValue.Num?)
    ensures selectType != Some(IntegerType) ==> (r.Some? <==> defaultValue.Str?)
  {
    if selectType == Some(IntegerType) then
      if defaultValue.Num? then Some(defaultValue) else None
    else if defaultValue.Str? then Some(defaultValue) else None
  }

  /** Whenever the API advertises a create default, the database holds the same one. */
  lemma CreateDefaultAgrees(selectType: Option<SelectType>, defaultValue: Value)
    requires CreateArgDefault(selectType, defaultValue).Some?
    ensures DbDefault(defaultValue) == CreateArgDefault(selectType, defaultValue)
  {
  }
}
