/**
  The admin-UI controller of the timestamp field
  (packages/core/src/fields/types/timestamp/views/index.tsx): the
  validation chain with its `now`/`updatedAt` exemption, the form default,
  the (de)serialisation of the item's value, and the filter encoder/decoder.

  Timestamps are opaque ISO strings; nothing here parses or formats a date.
*/
module TimestampView {
  import opened Json
  import opened FieldValues

  /** `fieldMeta.defaultValue`: `null`, a fixed timestamp, or `{ kind: 'now' }`. */
  datatype TimestampDefault = NoDefault | Fixed(timestamp: string) | Now

  datatype TimestampMeta = TimestampMeta(defaultValue: TimestampDefault, updatedAt: bool)

  /** A value is empty when it is falsy: `null`, `undefined` or the empty string. */
  predicate IsEmpty(v: Value)
  {
    !Truthy(v)
  }

  /** The database supplies the value of a new item: a `now` default, or an `updatedAt` field. */
  predicate FilledByDatabase(meta: TimestampMeta)
  {
    meta.defaultValue == Now || meta.updatedAt
  }

  /**
    What validation accepts: a non-empty value always; an empty one when it
    was null when loaded, when the database fills it in on create, or when
    the field is not required.
  */
  predicate Acceptable(value: ItemValue, meta: TimestampMeta, isRequired: bool)
  {
    !IsEmpty(value.value)
    || (value.Update? && value.initial == Null)
    || (value.Create? && FilledByDatabase(meta))
    || !isRequired
  }

  function RequiredMessage(name: string): string
  {
    name + " is required"
  }

  /** `validate`: `None` when the value may be saved, else the one message this field reports. */
  function ValidateValue(value: ItemValue, meta: TimestampMeta, isRequired: bool, name: string): (r: Option<string>)
    ensures r == None <==> Acceptable(value, meta, isRequired)
    ensures r.Some? ==> r.value == RequiredMessage(name) && IsEmpty(value.value)
  {
    var isEmpty := !Truthy(value.value);
    if value.Update? && value.initial == Null && isEmpty then None
    else if value.Create? && isEmpty && (meta.defaultValue == Now || meta.updatedAt) then None
    else if isRequired && isEmpty then Some(RequiredMessage(name))
    else None
  }

  // ---------------------------------------------------------------------
  // The controller

  /** `controller.validate`: whether validation found nothing to report. */
  function ControllerValidate(meta: TimestampMeta, name: string, value: ItemValue, isRequired: bool): (r: bool)
    ensures r <==> Acceptable(value, meta, isRequired)
  {
    ValidateValue(value, meta, isRequired, name) == None
  }

  /** `controller.defaultValue`: a fixed default fills the form; `now` and no default leave it null. */
  function ControllerDefault(meta: TimestampMeta): (r: ItemValue)
    ensures r.Create?
    ensures meta.defaultValue.Fixed? ==> r.value == Str(meta.defaultValue.timestamp)
    ensures !meta.defaultValue.Fixed? ==> r.value == Null
  {
    Create(if meta.defaultValue.Fixed? then Str(meta.defaultValue.timestamp) else Null)
  }

  /**
    `controller.deserialize`: the loaded value is the initial value as read,
    and the current value with a missing (`undefined`) one read as null.
  */
  function Deserialize(path: string, data: Value): (r: ItemValue)
    ensures r.Update? && r.initial == Get(data, path)
    ensures r.value != Undefined
    ensures Get(data, path) != Undefined ==> r.value == Get(data, path)
  {
    var v := Get(data, path);
    Update(v, if v == Null || v == Undefined then Null else v)
  }

  /** `controller.serialize`: the current value under the field's path, any empty value sent as null. */
  function Serialize(path: string, value: ItemValue): (r: Value)
    ensures IsEmpty(value.value) ==> Get(r, path) == Null
    ensures !IsEmpty(value.value) ==> Get(r, path) == value.value
  {
    if Truthy(value.value) then Single(path, value.value) else Single(path, Null)
  }

  /**
    Saving and reloading keeps a non-empty timestamp, and turns any empty
    value (including the empty string) into null.
  */
  lemma SerializeDeserialize(path: string, value: ItemValue)
    ensures var back := Deserialize(path, Serialize(path, value));
            back.Update? && back.initial == back.value
            && (back.value == value.value <==> !IsEmpty(value.value) || value.value == Null)
  {
  }

  /** A field whose loaded value is null can be saved unchanged, even when required. */
  lemma LoadedNullSaves(meta: TimestampMeta, name: string, path: string, data: Value, isRequired: bool)
    requires Get(data, path) == Null
    ensures ControllerValidate(meta, name, Deserialize(path, data), isRequired)
  {
  }

  /**
    The form's default passes a required check exactly when the database
    fills the value in, or the fixed default is a non-empty timestamp.
  */
  lemma DefaultPassesRequired(meta: TimestampMeta, name: string)
    ensures ControllerValidate(meta, name, ControllerDefault(meta), true) <==>
              FilledByDatabase(meta) || (meta.defaultValue.Fixed? && meta.defaultValue.timestamp != "")
  {
  }

  // ---------------------------------------------------------------------
  // Filters

  /** The filter operators the timestamp field offers: neither `gte` nor `lte`. */
  predicate Offered(t: FilterType)
  {
    t !in {Gte, Lte}
  }

  /** One `where` entry decoded (`filter.parseGraphQL` for a single key). */
  function ParseEntry(key: string, v: Value): (r: seq<Filter>)
    ensures |r| <= 1
    ensures r != [] ==> Offered(r[0].kind)
    ensures r != [] && r[0].kind in {Empty, NotEmpty} ==> r[0].value == Null
    ensures r != [] && r[0].kind in {Equals, Gt, Lt} ==> Truthy(r[0].value) && r[0].value == v
  {
    if key == "equals" && v == Null then [Filter(Empty, Null)]
    else if !Truthy(v) then []
    else if key == "equals" then [Filter(Equals, v)]
    else if key == "not" then
      if Get(v, "equals") == Null then [Filter(NotEmpty, Null)]
      else [Filter(Not, Get(v, "equals"))]
    else if key == "gt" then [Filter(Gt, v)]
    else if key == "lt" then [Filter(Lt, v)]
    else []
  }

  /** `filter.parseGraphQL`: every entry of the field's condition decoded, in order. */
  function ParseGraphQL(entries: seq<Member>): (r: seq<Filter>)
    ensures |r| <= |entries|
  {
    assert forall k, v :: |ParseEntry(k, v)| <= 1;
    ParseAll(entries, ParseEntry)
  }

  /**
    The filters that survive an encode/decode trip: offered operators only;
    `empty` and `not_empty` carry no value, `not` any value but `null`, and
    the other operators a truthy one.
  */
  predicate RoundTrips(f: Filter)
  {
    Offered(f.kind) &&
    match f.kind
    case Empty => f.value == Null
    case NotEmpty => f.value == Null
    case Not => f.value != Null
    case _ => Truthy(f.value)
  }

  /** Decoding the encoding of a filter gives back exactly that filter precisely when it round-trips. */
  lemma EncodeDecode(path: string, f: Filter)
    ensures ParseGraphQL(Get(Graphql(path, f), path).members) == [f] <==> RoundTrips(f)
  {
    var c := Condition(f);
    if f.kind == Not || f.kind == NotEmpty {
      assert Truthy(c.members[0].value);
    }
  }

  /** On non-empty timestamps, every offered filter survives the trip. */
  lemma EncodeDecodeTimestamps(path: string, t: FilterType, s: string)
    requires Offered(t) && s != ""
    ensures var f := Filter(t, if t in {Empty, NotEmpty} then Null else Str(s));
            ParseGraphQL(Get(Graphql(path, f), path).members) == [f]
  {
    EncodeDecode(path, Filter(t, if t in {Empty, NotEmpty} then Null else Str(s)));
  }

  /** Every filter the decoder produces round-trips, so decoding then encoding is stable. */
  lemma DecodedRoundTrip(entries: seq<Member>)
    ensures forall f :: f in ParseGraphQL(entries) ==> RoundTrips(f)
  {
    assert forall k, v, f :: f in ParseEntry(k, v) ==> RoundTrips(f);
    ParseAllEvery(entries, ParseEntry, RoundTrips);
  }
}
