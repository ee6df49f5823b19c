/**
  What the admin-UI field controllers of the integer and timestamp views
  share: the form state of a field, the filter a list view holds, the
  `where` input a filter encodes to, and the decimal rendering of an integer
  inside a message.
*/
module FieldValues {
  import opened Json

  /**
    A field's form state: a value being entered for a new item, or the
    value of an existing item together with the value it was loaded with.
  */
  datatype ItemValue = Create(value: Value) | Update(initial: Value, value: Value)

  /** The filter operators the list view offers (the `types` of a field's filter). */
  datatype FilterType = Equals | Not | Gt | Lt | Gte | Lte | Empty | NotEmpty

  datatype Filter = Filter(kind: FilterType, value: Value)

  /** The operator's key in a `where` input. */
  function TypeKey(t: FilterType): string
  {
    match t
    case Equals => "equals"
    case Not => "not"
    case Gt => "gt"
    case Lt => "lt"
    case Gte => "gte"
    case Lte => "lte"
    case Empty => "empty"
    case NotEmpty => "not_empty"
  }

  /**
    The condition a filter puts on the field (`filter.graphql` without the
    outer `{ [path]: … }`): `empty` asks for `equals: null`, `not_empty` for
    `not: { equals: null }`, `not v` for `not: { equals: v }`, and every
    other operator for `{ [operator]: v }`.
  */
  function Condition(f: Filter): (r: Value)
    ensures r.Obj? && |r.members| == 1
  {
    match f.kind
    case Empty => Single("equals", Null)
    case NotEmpty => Single("not", Single("equals", Null))
    case Not => Single("not", Single("equals", f.value))
    case _ => Single(TypeKey(f.kind), f.value)
  }

  /** `filter.graphql`: the `where` input for the field at `path`. */
  function Graphql(path: string, f: Filter): (r: Value)
    ensures r.Obj? && |r.members| == 1 && r.members[0].key == path
    ensures Get(r, path) == Condition(f)
  {
    Single(path, Condition(f))
  }

  // ---------------------------------------------------------------------
  // Decoding a condition

  /**
    `filter.parseGraphQL`: every entry of the field's condition decoded by
    the view's own `parseEntry`, the results concatenated in entry order.
  */
  function ParseAll(entries: seq<Member>, parseEntry: (string, Value) -> seq<Filter>): (r: seq<Filter>)
    ensures (forall k, v :: |parseEntry(k, v)| <= 1) ==> |r| <= |entries|
    ensures |entries| == 1 ==> r == parseEntry(entries[0].key, entries[0].value)
  {
    if |entries| == 0 then []
    else
      var rest := ParseAll(entries[1..], parseEntry);
      assert |entries| == 1 ==> rest == [];
      parseEntry(entries[0].key, entries[0].value) + rest
  }

  /** What holds of every filter any one entry decodes to holds of every filter the condition decodes to. */
  lemma {:induction false} ParseAllEvery(entries: seq<Member>, parseEntry: (string, Value) -> seq<Filter>,
                                          keep: Filter -> bool)
    requires forall k, v, f :: f in parseEntry(k, v) ==> keep(f)
    ensures forall f :: f in ParseAll(entries, parseEntry) ==> keep(f)
  {
    if |entries| > 0 {
      ParseAllEvery(entries[1..], parseEntry, keep);
    }
  }

  // ---------------------------------------------------------------------
  // Decimal rendering of integers, as a template literal prints them

  predicate IsDigit(c: char)
  {
    '0' <= c <= '9'
  }

  predicate AllDigits(s: string)
  {
    forall i :: 0 <= i < |s| ==> IsDigit(s[i])
  }

  function DigitChar(d: nat): (c: char)
    requires d < 10
    ensures IsDigit(c)
  {
    (48 + d) as char
  }

  function DigitValue(c: char): (d: nat)
    requires IsDigit(c)
    ensures d < 10
  {
    (c as int) - 48
  }

  /** The digits of `n`, most significant first, without leading zeros. */
  function NatToString(n: nat): (s: string)
    ensures |s| >= 1 && AllDigits(s)
    ensures |s| > 1 ==> s[0] != '0'
    decreases n
  {
    if n < 10 then [DigitChar(n)] else NatToString(n / 10) + [DigitChar(n % 10)]
  }

  function IntToString(n: int): (s: string)
    ensures |s| >= 1
    ensures n < 0 <==> s[0] == '-'
  {
    if n < 0 then "-" + NatToString(-n) else NatToString(n)
  }

  /** The value of a string of decimal digits. */
  function DigitsToNat(s: string): nat
    requires AllDigits(s)
  {
    if |s| == 0 then 0 else DigitsToNat(s[..|s| - 1]) * 10 + DigitValue(s[|s| - 1])
  }

  /** Reads back an optionally negated decimal numeral. */
  function ParseInt(s: string): Option<int>
  {
    if |s| > 1 && s[0] == '-' && AllDigits(s[1..]) then Some(0 - DigitsToNat(s[1..]) as int)
    else if |s| > 0 && AllDigits(s) then Some(DigitsToNat(s))
    else None
  }

  lemma {:induction false} NatToStringRoundTrip(n: nat)
    ensures DigitsToNat(NatToString(n)) == n
    decreases n
  {
    if n >= 10 {
      NatToStringRoundTrip(n / 10);
      var s := NatToString(n);
      assert s[..|s| - 1] == NatToString(n / 10);
      assert s[|s| - 1] == DigitChar(n % 10);
    }
  }

  /** The rendering loses nothing: the integer can be read back from its message text. */
  lemma IntToStringRoundTrip(n: int)
    ensures ParseInt(IntToString(n)) == Some(n)
  {
    if n < 0 {
      var s := IntToString(n);
      assert s[1..] == NatToString(-n);
      NatToStringRoundTrip(-n);
    } else {
      NatToStringRoundTrip(n);
    }
  }
}
