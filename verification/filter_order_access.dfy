/**
  The filter / orderBy access gate
  (packages/core/src/lib/core/filter-order-access.ts).

  Before a query may filter or order by some fields, every such field's
  `isFilterable` / `isOrderable` rule is evaluated. A rule that is a function
  is called; the call may throw, return a non-boolean, or return a boolean.
  The rule outcomes are given here as data (`Rule`), so the asynchronous
  call disappears and only the bucketing and the error priority remain.
*/
module FilterOrderAccess {

  datatype Operation = Filter | OrderBy

  /** The `typeof` tags a rule's result can carry other than `boolean`. */
  datatype TypeTag = UndefinedType | ObjectType | NumberType | StringType | BigIntType | SymbolType | FunctionType

  /** A field's rule for the operation, with the outcome of calling it when it is a function. */
  datatype Rule =
    | Falsy                          // no rule, or `false`: the field should never have been offered
    | NotAFunction                   // a truthy non-function rule (`true`): nothing to evaluate
    | Throws(error: string)
    | ReturnsNonBool(tag: TypeTag)
    | ReturnsBool(allowed: bool)

  /** One `{ fieldKey, list }` entry: the list key, the field key and the field's two rules. */
  datatype FieldRef = FieldRef(listKey: string, fieldKey: string, isFilterable: Rule, isOrderable: Rule)

  datatype ThrownEntry = ThrownEntry(error: string, tag: string)

  datatype ReturnTypeEntry = ReturnTypeEntry(tag: string, returned: string)

  datatype AccessError =
    | AssertFailed
    | ExtensionError(func: string, thrown: seq<ThrownEntry>)
    | AccessReturnError(entries: seq<ReturnTypeEntry>)
    | FilterAccessError(operation: Operation, fieldKeys: seq<string>)

  datatype Outcome = Pass | Fail(error: AccessError)

  function TypeName(t: TypeTag): string
  {
    match t
    case UndefinedType => "undefined"
    case ObjectType => "object"
    case NumberType => "number"
    case StringType => "string"
    case BigIntType => "bigint"
    case SymbolType => "symbol"
    case FunctionType => "function"
  }

  /** The name of the rule the operation consults. */
  function FuncName(op: Operation): string
  {
    if op == Filter then "isFilterable" else "isOrderable"
  }

  function RuleFor(f: FieldRef, op: Operation): Rule
  {
    if op == Filter then f.isFilterable else f.isOrderable
  }

  /** `listKey.fieldKey`, the name a denial reports. */
  function FieldPath(f: FieldRef): string
  {
    f.listKey + "." + f.fieldKey
  }

  /** `listKey.fieldKey.isFilterable` or `listKey.fieldKey.isOrderable`, the tag of a rule error. */
  function Tag(f: FieldRef, op: Operation): string
  {
    FieldPath(f) + "." + FuncName(op)
  }

  // ---------------------------------------------------------------------
  // What the gate must report, field by field

  /** The concatenation of `entry(f)` over `fs`, in input order. */
  function Collect<T>(fs: seq<FieldRef>, entry: FieldRef -> seq<T>): seq<T>
  {
    if |fs| == 0 then [] else entry(fs[0]) + Collect(fs[1..], entry)
  }

  function ThrownOf(f: FieldRef, op: Operation): seq<ThrownEntry>
  {
    match RuleFor(f, op)
    case Throws(e) => [ThrownEntry(e, Tag(f, op))]
    case _ => []
  }

  function ReturnTypeOf(f: FieldRef, op: Operation): seq<ReturnTypeEntry>
  {
    match RuleFor(f, op)
    case ReturnsNonBool(t) => [ReturnTypeEntry(Tag(f, op), TypeName(t))]
    case _ => []
  }

  function DeniedOf(f: FieldRef, op: Operation): seq<string>
  {
    match RuleFor(f, op)
    case ReturnsBool(false) => [FieldPath(f)]
    case _ => []
  }

  function Thrown(fs: seq<FieldRef>, op: Operation): seq<ThrownEntry>
  {
    Collect(fs, f => ThrownOf(f, op))
  }

  function ReturnTypeErrors(fs: seq<FieldRef>, op: Operation): seq<ReturnTypeEntry>
  {
    Collect(fs, f => ReturnTypeOf(f, op))
  }

  function Denied(fs: seq<FieldRef>, op: Operation): seq<string>
  {
    Collect(fs, f => DeniedOf(f, op))
  }

  predicate AnyFalsy(fs: seq<FieldRef>, op: Operation)
  {
    exists i :: 0 <= i < |fs| && RuleFor(fs[i], op).Falsy?
  }

  /** A rule lets the field through: it is a non-function, or a function returning `true`. */
  predicate Allows(r: Rule)
  {
    r.NotAFunction? || r == ReturnsBool(true)
  }

  // ---------------------------------------------------------------------
  // The gate

  /**
    Evaluates every field's rule, without stopping at a thrown error, and
    then raises at most one error: `Assert failed` as soon as a field has no
    rule; else the extension error with every thrown error; else the
    return-type error with every non-boolean result; else the access error
    naming every denied field.
  */
  method CheckFilterOrderAccess(things: seq<FieldRef>, op: Operation) returns (r: Outcome)
    ensures AnyFalsy(things, op) ==> r == Fail(AssertFailed)
    ensures !AnyFalsy(things, op) && Thrown(things, op) != [] ==>
              r == Fail(ExtensionError(FuncName(op), Thrown(things, op)))
    ensures !AnyFalsy(things, op) && Thrown(things, op) == [] && ReturnTypeErrors(things, op) != [] ==>
              r == Fail(AccessReturnError(ReturnTypeErrors(things, op)))
    ensures !AnyFalsy(things, op) && Thrown(things, op) == [] && ReturnTypeErrors(things, op) == []
            && Denied(things, op) != [] ==>
              r == Fail(FilterAccessError(op, Denied(things, op)))
    ensures r == Pass <==>
              !AnyFalsy(things, op) && Thrown(things, op) == [] && ReturnTypeErrors(things, op) == []
              && Denied(things, op) == []
  {
    var failures: seq<string> := [];
    var returnTypeErrors: seq<ReturnTypeEntry> := [];
    var accessErrors: seq<ThrownEntry> := [];
    var i := 0;
    while i < |things|
      invariant 0 <= i <= |things|
      invariant !AnyFalsy(things[..i], op)
      invariant accessErrors == Thrown(things[..i], op)
      invariant returnTypeErrors == ReturnTypeErrors(things[..i], op)
      invariant failures == Denied(things[..i], op)
    {
      var f := things[i];
      ReportsSnoc(things, i, op);
      match RuleFor(f, op) {
        case Falsy =>
          return Fail(AssertFailed);
        case NotAFunction =>
        case Throws(e) =>
          accessErrors := accessErrors + [ThrownEntry(e, Tag(f, op))];
        case ReturnsNonBool(t) =>
          returnTypeErrors := returnTypeErrors + [ReturnTypeEntry(Tag(f, op), TypeName(t))];
        case ReturnsBool(allowed) =>
          if !allowed {
            failures := failures + [FieldPath(f)];
          }
      }
      i := i + 1;
    }
    assert things[..i] == things;
    if |accessErrors| > 0 {
      return Fail(ExtensionError(FuncName(op), accessErrors));
    }
    if |returnTypeErrors| > 0 {
      return Fail(AccessReturnError(returnTypeErrors));
    }
    if |failures| > 0 {
      return Fail(FilterAccessError(op, failures));
    }
    return Pass;
  }

  // ---------------------------------------------------------------------
  // Properties of the reports

  /** Reports follow input order: the entries of a prefix come before those of the rest. */
  lemma {:induction false} CollectAppend<T>(a: seq<FieldRef>, b: seq<FieldRef>, entry: FieldRef -> seq<T>)
    ensures Collect(a + b, entry) == Collect(a, entry) + Collect(b, entry)
  {
    if |a| == 0 {
      assert a + b == b;
    } else {
      assert (a + b)[1..] == a[1..] + b;
      CollectAppend(a[1..], b, entry);
    }
  }

  lemma CollectSnoc<T>(fs: seq<FieldRef>, i: nat, entry: FieldRef -> seq<T>)
    requires i < |fs|
    ensures Collect(fs[..i + 1], entry) == Collect(fs[..i], entry) + entry(fs[i])
  {
    assert fs[..i + 1] == fs[..i] + [fs[i]];
    CollectAppend(fs[..i], [fs[i]], entry);
    assert [fs[i]][1..] == [];
  }

  /** One more field extends each report by that field's own entries, and the falsy check by its rule. */
  lemma ReportsSnoc(fs: seq<FieldRef>, i: nat, op: Operation)
    requires i < |fs|
    ensures Thrown(fs[..i + 1], op) == Thrown(fs[..i], op) + ThrownOf(fs[i], op)
    ensures ReturnTypeErrors(fs[..i + 1], op) == ReturnTypeErrors(fs[..i], op) + ReturnTypeOf(fs[i], op)
    ensures Denied(fs[..i + 1], op) == Denied(fs[..i], op) + DeniedOf(fs[i], op)
    ensures AnyFalsy(fs[..i + 1], op) <==> AnyFalsy(fs[..i], op) || RuleFor(fs[i], op).Falsy?
  {
    CollectSnoc(fs, i, f => ThrownOf(f, op));
    CollectSnoc(fs, i, f => ReturnTypeOf(f, op));
    CollectSnoc(fs, i, f => DeniedOf(f, op));
    if AnyFalsy(fs[..i + 1], op) {
      var j :| 0 <= j < i + 1 && RuleFor(fs[..i + 1][j], op).Falsy?;
      if j < i {
        assert fs[..i][j] == fs[..i + 1][j];
      }
    }
    if AnyFalsy(fs[..i], op) {
      var j :| 0 <= j < i && RuleFor(fs[..i][j], op).Falsy?;
      assert fs[..i + 1][j] == fs[..i][j];
    }
    if RuleFor(fs[i], op).Falsy? {
      assert fs[..i + 1][i] == fs[i];
    }
  }

  /** Every thrown error is reported, tagged with its field, and nothing else is. */
  lemma {:induction false} ThrownExactly(fs: seq<FieldRef>, op: Operation)
    ensures forall i :: 0 <= i < |fs| && RuleFor(fs[i], op).Throws? ==>
              ThrownEntry(RuleFor(fs[i], op).error, Tag(fs[i], op)) in Thrown(fs, op)
    ensures forall t :: t in Thrown(fs, op) ==>
              exists i :: 0 <= i < |fs| && RuleFor(fs[i], op) == Throws(t.error) && t.tag == Tag(fs[i], op)
  {
    if |fs| > 0 {
      ThrownExactly(fs[1..], op);
      assert Thrown(fs, op) == ThrownOf(fs[0], op) + Thrown(fs[1..], op);
      forall i | 1 <= i < |fs|
        ensures fs[i] == fs[1..][i - 1]
      {
      }
    }
  }

  /**
    The gate passes exactly when every field's rule lets it through: a
    non-boolean result is never read as truthy, and a non-function rule is
    never evaluated.
  */
  lemma {:induction false} PassIffAllAllow(fs: seq<FieldRef>, op: Operation)
    ensures (forall i :: 0 <= i < |fs| ==> Allows(RuleFor(fs[i], op))) <==>
              !AnyFalsy(fs, op) && Thrown(fs, op) == [] && ReturnTypeErrors(fs, op) == [] && Denied(fs, op) == []
  {
    if |fs| > 0 {
      PassIffAllAllow(fs[1..], op);
      assert Thrown(fs, op) == ThrownOf(fs[0], op) + Thrown(fs[1..], op);
      assert ReturnTypeErrors(fs, op) == ReturnTypeOf(fs[0], op) + ReturnTypeErrors(fs[1..], op);
      assert Denied(fs, op) == DeniedOf(fs[0], op) + Denied(fs[1..], op);
      assert AnyFalsy(fs, op) <==> RuleFor(fs[0], op).Falsy? || AnyFalsy(fs[1..], op) by {
        if AnyFalsy(fs, op) {
          var i :| 0 <= i < |fs| && RuleFor(fs[i], op).Falsy?;
          if i > 0 {
            assert fs[1..][i - 1] == fs[i];
          }
        }
      }
      forall i | 1 <= i < |fs|
        ensures fs[i] == fs[1..][i - 1]
      {
      }
    }
  }
}
