/**
  The admin-UI controller of the integer field
  (packages/core/src/fields/types/integer/views/index.tsx): the ordered
  validation chain, the form default, the (de)serialisation of the item's
  value, and the filter encoder/decoder with its operator labels.

  Numbers are `real`s; "is an integer" is `Number.isInteger` on them. NaN and
  the infinities are not values of this model.
*/
module IntegerView {
  import opened Json
  import opened FieldValues

  /** The field's `validation` bounds; `None` is a bound that is `undefined`. */
  datatype Bounds = Bounds(min: Option<int>, max: Option<int>)

  /** `fieldMeta.defaultValue`: `'autoincrement'`, or a number or `null`. */
  datatype IntegerDefault = AutoIncrement | Literal(value: Value)

  datatype IntegerMeta = IntegerMeta(validation: Bounds, defaultValue: IntegerDefault)

  predicate IsInteger(x: real)
  {
    x == x.Floor as real
  }

  predicate InBounds(x: real, b: Bounds)
  {
    (b.min.Some? ==> x >= b.min.value as real) && (b.max.Some? ==> x <= b.max.value as real)
  }

  /**
    A null value needs no entry when the database fills it in (an
    auto-increment default on create) or when it was already null when the
    item was loaded.
  */
  predicate NullExempt(value: ItemValue, hasAutoIncrementDefault: bool)
  {
    value.value == Null &&
    ((value.Create? && hasAutoIncrementDefault) || (value.Update? && value.initial == Null))
  }

  /**
    What the validation chain accepts, stated per kind of input: a null is
    fine when exempt or not required, a number when it is an integer within
    the bounds, and any other input (`undefined`, a string) is not checked.
  */
  predicate Acceptable(value: ItemValue, validation: Bounds, isRequired: bool, hasAutoIncrementDefault: bool)
  {
    match value.value
    case Null => NullExempt(value, hasAutoIncrementDefault) || !isRequired
    case Num(n) => IsInteger(n) && InBounds(n, validation)
    case _ => true
  }

  function RequiredMessage(name: string): string
  {
    name + " is required"
  }

  function NotIntegerMessage(name: string): string
  {
    name + " is not a valid integer"
  }

  function BelowMinMessage(name: string, min: int): string
  {
    name + " must be greater than or equal to " + IntToString(min)
  }

  function AboveMaxMessage(name: string, max: int): string
  {
    name + " must be less than or equal to " + IntToString(max)
  }

  /**
    `validate_`: the first failing rule's message, `None` when the value is
    acceptable. The rules run in order: exemptions, required, number,
    integer, minimum, maximum.
  */
  function ValidateValue(value: ItemValue, validation: Bounds, isRequired: bool, name: string,
                         hasAutoIncrementDefault: bool): (r: Option<string>)
    ensures r == None <==> Acceptable(value, validation, isRequired, hasAutoIncrementDefault)
    ensures value.value == Null && r.Some? ==> r == Some(RequiredMessage(name))
    ensures value.value.Num? && !IsInteger(value.value.n) ==> r == Some(NotIntegerMessage(name))
    ensures value.value.Num? && IsInteger(value.value.n) && validation.min.Some?
            && value.value.n < validation.min.value as real ==>
              r == Some(BelowMinMessage(name, validation.min.value))
    ensures value.value.Num? && IsInteger(value.value.n) && InBounds(value.value.n, Bounds(validation.min, None))
            && validation.max.Some? && value.value.n > validation.max.value as real ==>
              r == Some(AboveMaxMessage(name, validation.max.value))
  {
    var input := value.value;
    if value.Create? && hasAutoIncrementDefault && input == Null then None
    else if value.Update? && value.initial == Null && input == Null then None
    else if isRequired && input == Null then Some(RequiredMessage(name))
    else if !input.Num? then None
    else if !IsInteger(input.n) then Some(NotIntegerMessage(name))
    else if validation.min.Some? && input.n < validation.min.value as real then
      Some(BelowMinMessage(name, validation.min.value))
    else if validation.max.Some? && input.n > validation.max.value as real then
      Some(AboveMaxMessage(name, validation.max.value))
    else None
  }

  // ---------------------------------------------------------------------
  // The controller

  /** `controller.validate`: whether the chain found nothing to report. */
  function ControllerValidate(meta: IntegerMeta, name: string, value: ItemValue, isRequired: bool): (r: bool)
    ensures r <==> Acceptable(value, meta.validation, isRequired, meta.defaultValue.AutoIncrement?)
  {
    ValidateValue(value, meta.validation, isRequired, name, meta.defaultValue.AutoIncrement?) == None
  }

  /** `controller.defaultValue`: a new item starts empty when the database numbers it. */
  function ControllerDefault(meta: IntegerMeta): (r: ItemValue)
    ensures r.Create?
    ensures meta.defaultValue.AutoIncrement? ==> r.value == Null
    ensures meta.defaultValue.Literal? ==> r.value == meta.defaultValue.value
  {
    Create(if meta.defaultValue.AutoIncrement? then Null else meta.defaultValue.value)
  }

  /** `controller.deserialize`: the loaded item's value is both the initial and the current value. */
  function Deserialize(path: string, data: Value): (r: ItemValue)
    ensures r.Update? && r.initial == r.value == Get(data, path)
  {
    Update(Get(data, path), Get(data, path))
  }

  /** `controller.serialize`: the current value under the field's path. */
  function Serialize(path: string, value: ItemValue): (r: Value)
    ensures Get(r, path) == value.value
  {
    Single(path, value.value)
  }

  /** Saving and reloading an item gives back the current value, now also as the initial value. */
  lemma SerializeDeserialize(path: string, value: ItemValue)
    ensures Deserialize(path, Serialize(path, value)) == Update(value.value, value.value)
  {
  }

  /** A field whose loaded value is null can be saved unchanged, even when required. */
  lemma LoadedNullSaves(meta: IntegerMeta, name: string, path: string, data: Value, isRequired: bool)
    requires Get(data, path) == Null
    ensures ControllerValidate(meta, name, Deserialize(path, data), isRequired)
  {
  }

  /**
    The form's default passes a required check exactly when the database
    numbers the item, or the configured default is an integer within the
    bounds (a non-number default is not checked).
  */
  lemma DefaultPassesRequired(meta: IntegerMeta, name: string)
    ensures ControllerValidate(meta, name, ControllerDefault(meta), true) <==>
              meta.defaultValue.AutoIncrement?
              || (meta.defaultValue.value != Null
                  && (meta.defaultValue.value.Num? ==>
                        IsInteger(meta.defaultValue.value.n) && InBounds(meta.defaultValue.value.n, meta.validation)))
  {
  }

  // ---------------------------------------------------------------------
  // Filters

  /** One `where` entry decoded (`filter.parseGraphQL` for a single key). */
  function ParseEntry(key: string, v: Value): (r: seq<Filter>)
    ensures |r| <= 1
    ensures r != [] && r[0].kind in {Empty, NotEmpty} ==> r[0].value == Null
    ensures r != [] && r[0].kind in {Equals, Gt, Gte, Lt, Lte} ==> Truthy(r[0].value) && r[0].value == v
  {
    if key == "equals" && v == Null then [Filter(Empty, Null)]
    else if !Truthy(v) then []
    else if key == "equals" then [Filter(Equals, v)]
    else if key == "not" then
      if Get(v, "equals") == Null then [Filter(NotEmpty, Null)]
      else if Get(v, "equals") == Undefined then []
      else [Filter(Not, Get(v, "equals"))]
    else if key == "gt" then [Filter(Gt, v)]
    else if key == "gte" then [Filter(Gte, v)]
    else if key == "lt" then [Filter(Lt, v)]
    else if key == "lte" then [Filter(Lte, v)]
    else []
  }

  /** `filter.parseGraphQL`: every entry of the field's condition decoded, in order. */
  function ParseGraphQL(entries: seq<Member>): (r: seq<Filter>)
    ensures |r| <= |entries|
  {
    assert forall k, v :: |ParseEntry(k, v)| <= 1;
    ParseAll(entries, ParseEntry)
  }

  /**
    The filters that survive an encode/decode trip: `empty` and `not_empty`
    carry no value, `not` needs a value other than `null`/`undefined`, and
    the other operators need a truthy value (a `0` is dropped).
  */
  predicate RoundTrips(f: Filter)
  {
    match f.kind
    case Empty => f.value == Null
    case NotEmpty => f.value == Null
    case Not => f.value != Null && f.value != Undefined
    case _ => Truthy(f.value)
  }

  /** Decoding the encoding of a filter gives back exactly that filter precisely when it round-trips. */
  lemma EncodeDecode(path: string, f: Filter)
    ensures ParseGraphQL(Get(Graphql(path, f), path).members) == [f] <==> RoundTrips(f)
  {
    var c := Condition(f);
    if f.kind == Not || f.kind == NotEmpty {
      assert Truthy(c.members[0].value);
    }
  }

  /** Every filter the decoder produces round-trips, so decoding then encoding is stable. */
  lemma DecodedRoundTrip(entries: seq<Member>)
    ensures forall f :: f in ParseGraphQL(entries) ==> RoundTrips(f)
  {
    assert forall k, v, f :: f in ParseEntry(k, v) ==> RoundTrips(f);
    ParseAllEvery(entries, ParseEntry, RoundTrips);
  }

  // ---------------------------------------------------------------------
  // Labels

  /** `TYPE_OPERATOR_MAP`: the symbol shown for each comparison operator. */
  function OperatorSymbol(t: FilterType): (r: Option<string>)
    ensures r.Some? <==> t !in {Empty, NotEmpty}
    ensures r.Some? ==> |r.value| == 1 && SymbolOperator(r.value[0]) == Some(t)
  {
    match t
    case Equals => Some("=")
    case Not => Some("≠")
    case Gt => Some(">")
    case Lt => Some("<")
    case Gte => Some("≥")
    case Lte => Some("≤")
    case _ => None
  }

  /** The operator a symbol stands for: the inverse of `OperatorSymbol`. */
  function SymbolOperator(c: char): Option<FilterType>
  {
    if c == '=' then Some(Equals)
    else if c == '≠' then Some(Not)
    else if c == '>' then Some(Gt)
    else if c == '<' then Some(Lt)
    else if c == '≥' then Some(Gte)
    else if c == '≤' then Some(Lte)
    else None
  }

  /**
    `filter.Label`: the lower-cased field label for `empty`/`not_empty`,
    otherwise the operator symbol, a space and the operand. Lower-casing and
    the rendering of the operand are the runtime's and come in as functions.
  */
  function FilterLabel(name: string, f: Filter, lower: string -> string, show: Value -> string): (r: string)
    ensures f.kind in {Empty, NotEmpty} ==> r == lower(name)
    ensures f.kind !in {Empty, NotEmpty} ==>
              |r| >= 2 && SymbolOperator(r[0]) == Some(f.kind) && r[1] == ' ' && r[2..] == show(f.value)
  {
    match OperatorSymbol(f.kind)
    case None => lower(name)
    case Some(symbol) => symbol + " " + show(f.value)
  }
}
