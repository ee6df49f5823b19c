# Keystone core rules, modelled in Dafny

This project models five pieces of pure logic from the Keystone 6 headless
CMS and proves properties of them:

- **The filter / orderBy access gate.** Before a GraphQL query may filter
  or sort by some fields, each field's `isFilterable` / `isOrderable` rule
  is evaluated. The outcomes fall into three buckets: thrown errors,
  non-boolean results and denials. One error is then raised, in a fixed
  priority. (`FilterOrderAccess`)
- **The document field's structure grammar.** A rich-text document is an
  array of block nodes:
  - paragraphs, headings and layouts;
  - basic elements;
  - component blocks and their prop nodes.

  Inside `children`, the inline nodes (text leaves, links and relationships)
  may also appear. Every node is a strict object, and a link's `href` must be
  a safe URL. (`DocumentStructure`, over the JavaScript-like values of `Json`)
- **The select field.** This covers:
  - option normalisation;
  - the checks that reject a configuration with duplicate option values, or
    with integer options outside the signed 32-bit range;
  - the validate hook;
  - create-time defaulting;
  - the admin metadata;
  - the database index and default. (`SelectField`)
- **The integer field's admin-UI controller.** This covers:
  - the ordered validation chain;
  - the form default;
  - (de)serialisation;
  - the filter encoder and decoder;
  - the operator labels. (`IntegerView`)
- **The timestamp field's admin-UI controller.** This covers:
  - the validation chain with its `now` / `updatedAt` exemption;
  - the form default;
  - (de)serialisation;
  - the filter encoder and decoder. (`TimestampView`)

The form state, the filter datatype, the `where` encoding and the decimal
rendering of integers are shared by the two controllers (`FieldValues`).

`Json` also defines the escaping that `JSON.stringify` applies to a string,
which the document validator's error message goes through, together with its
inverse.

Every operation is paired with a reference definition or an inverse:
- The validator of `DocumentStructure` is proved to agree with a grammar that
  is stated node kind by node kind.
- The access gate is proved to agree with per-field report functions.
- The filter encoders are proved to round-trip exactly on a characterised set
  of filters.
- Each validation chain is proved equal to a declarative acceptance predicate.

## Model

| member | source | states |
|---|---|---|
| `FilterOrderAccess.CheckFilterOrderAccess` | packages/core/src/lib/core/filter-order-access.ts:5-48 | A field with a missing or falsy rule gives `Assert failed`. Otherwise the gate raises one error, in this priority: (1) the extension error with every thrown error; (2) the return-type error with every non-boolean result; (3) the access error naming every denied field. It passes exactly when all three lists are empty. |
| `FilterOrderAccess.CollectAppend` | packages/core/src/lib/core/filter-order-access.ts:14-36 | Every field is examined, and reports follow input order: the entries of a prefix of the fields come before those of the rest. |
| `FilterOrderAccess.ReportsSnoc` | packages/core/src/lib/core/filter-order-access.ts:14-36 | One more field extends each report by that field's own entries. It extends the falsy-rule check by that field's rule. |
| `FilterOrderAccess.ThrownExactly` | packages/core/src/lib/core/filter-order-access.ts:19-26 | Every thrown error is reported, tagged `listKey.fieldKey.isFilterable` (filter) or `listKey.fieldKey.isOrderable` (orderBy). Nothing else is reported as thrown. |
| `FilterOrderAccess.PassIffAllAllow` | packages/core/src/lib/core/filter-order-access.ts:27-47 | The gate passes exactly when every rule is a non-function or returns `true`. A non-boolean result is never read as truthy. |
| `DocumentStructure.ValidateDocumentStructure` | packages/fields-document/src/structure-validation.ts:163-168 | The input is returned unchanged exactly when it is an array of block nodes. Otherwise the error message starts with `Invalid document structure: `. It quotes `Invalid URL: <href>`, with the `href` escaped as in a JSON string, for every URL issue. Every unsafe link the validator reaches inside some `children` makes the input invalid and is quoted the same way. |
| `DocumentStructure.DocumentIssuesEmpty` | packages/fields-document/src/structure-validation.ts:138-154 | The type-dispatching validator reports no issue exactly when the value is a document of the node-by-node grammar. The grammar covers the strict key sets, heading levels, text alignment, marks and links. |
| `DocumentStructure.IsRelationshipData` | packages/fields-document/src/structure-validation.ts:84-90 | Holds exactly for an object with a string `id`, an optional string `label`, an optional record `data`, and no other key. |
| `DocumentStructure.UrlIssueLocatesLink` | packages/fields-document/src/structure-validation.ts:27-35 | Each reported URL issue's path leads to the `href` of a link node in the document, and that `href` fails the URL check. |
| `DocumentStructure.UnsafeLinkIssued` | packages/fields-document/src/structure-validation.ts:138-153 | A link with an unsafe `href`, reached from a top-level block through `children` steps of dispatched non-text nodes, raises the URL issue at its exact path followed by `href`. This is the converse of `UrlIssueLocatesLink`. |
| `DocumentStructure.TopLevelLinkUnknown` | packages/fields-document/src/structure-validation.ts:138-145 | A link at the top level is not dispatched at all: it raises exactly one unknown-type issue and no URL issue. |
| `DocumentStructure.RenderMentionsUrl` | packages/fields-document/src/structure-validation.ts:29-32 | Each URL issue contributes its `Invalid URL: <href>` text, with the `href` JSON-escaped, to the rendered message. |
| `DocumentStructure.IsText` | packages/fields-document/src/structure-validation.ts:8-22 | Definition of a text leaf: a strict object with a string `text`, no `type`, and each mark absent or `true`. |
| `DocumentStructure.IsLink` | packages/fields-document/src/structure-validation.ts:27-35 | Definition of a link: a strict object of type `link` whose string `href` passes the URL check, with valid `children`. |
| `DocumentStructure.IsHeading` | packages/fields-document/src/structure-validation.ts:37-50 | Definition of a heading: a strict object of type `heading` with level 1 to 6, `textAlign` absent, `center` or `end`, and valid `children`. |
| `DocumentStructure.IsParagraph` | packages/fields-document/src/structure-validation.ts:52-57 | Definition of a paragraph: a strict object of type `paragraph` with `textAlign` absent, `center` or `end`, and valid `children`. |
| `DocumentStructure.IsBasicElement` | packages/fields-document/src/structure-validation.ts:59-76 | Definition of a basic element: a strict object whose `type` is one of the eight basic element types, with valid `children`. |
| `DocumentStructure.IsLayout` | packages/fields-document/src/structure-validation.ts:77-83 | Definition of a layout: a strict object of type `layout` whose `layout` is an array of numbers, with valid `children`. |
| `DocumentStructure.IsRelationshipNode` | packages/fields-document/src/structure-validation.ts:92-98 | Definition of a relationship node: a strict object of type `relationship` with a string `relationship`, `data` either null or relationship data, and valid `children`. |
| `DocumentStructure.IsComponentBlock` | packages/fields-document/src/structure-validation.ts:100-106 | Definition of a component block: a strict object of type `component-block` with a string `component`, an object `props`, and valid `children`. |
| `DocumentStructure.IsComponentProp` | packages/fields-document/src/structure-validation.ts:108-119 | Definition of a component prop node: a strict object of type `component-block-prop` or `component-inline-prop` with `propPath`, when present, an array of strings and numbers, and valid `children`. |
| `DocumentStructure.ChildrenOk` | packages/fields-document/src/structure-validation.ts:138-153 | Definition of the `children` extension: `children` is present and is an array whose every item is a block or an inline node. |
| `DocumentStructure.NodeIssues` | packages/fields-document/src/structure-validation.ts:138-151 | The validator for one node: a non-object or an undispatched `type` gives one issue. Otherwise it gives the property issues, then the issues of `children` (except for text), then the unknown keys. At the top level only block types dispatch; inside `children` inline types do too. Its agreement with the grammar is `DocumentIssuesEmpty`. |
| `DocumentStructure.ChildIssues` | packages/fields-document/src/structure-validation.ts:139-150 | The validator for `children`: an issue at `children` when it is not an array, otherwise the issues of its items, each at its index under `children`. |
| `DocumentStructure.SeqIssues` | packages/fields-document/src/structure-validation.ts:153-154 | The validator for an array of nodes: the issues of each item in order, each item at its own index. |
| `DocumentStructure.DocumentIssues` | packages/fields-document/src/structure-validation.ts:154 | The validator for a document: one issue at the root for a non-array, otherwise the issues of its top-level blocks. |
| `DocumentStructure.InlineIsNotBlock` | packages/fields-document/src/structure-validation.ts:138-151 | No node is both a block and an inline node. |
| `DocumentStructure.InlineRejectedAtTop` | packages/fields-document/src/structure-validation.ts:154 | An inline node at the top level makes the document invalid. |
| `DocumentStructure.ParagraphChildren` | packages/fields-document/src/structure-validation.ts:52-57 | A paragraph's children may freely mix block and inline nodes. |
| `DocumentStructure.HeadingLevelAndAlign` | packages/fields-document/src/structure-validation.ts:37-50 | A heading is accepted exactly when its level is 1 to 6 and its `textAlign` is absent, `center` or `end`. |
| `DocumentStructure.LeafIsText` | packages/fields-document/src/structure-validation.ts:8-22 | An object with only a string `text` is a text leaf. |
| `DocumentStructure.NonArrayRejected` | packages/fields-document/src/validation.test.tsx:83-95 | A non-array such as `{}` gives exactly one issue, at the root. |
| `DocumentStructure.UnsafeLinkReported` | packages/fields-document/src/validation.test.tsx:97-121 | An unsafe link inside a paragraph is reported once, at path `[0, children, 0, href]`. |
| `DocumentStructure.ExcessKeyReported` | packages/fields-document/src/validation.test.tsx:123-154 | An extra `somethingElse` key on a link is reported once, at `[0, children, 0]`, naming that key. |
| `Json.UnescapeEscape` | packages/fields-document/src/structure-validation.ts:163-168 | The escaping of an issue message into the JSON text of the thrown error is lossless: reading the escaped text back as a JSON string body gives the message. |
| `SelectField.Normalise` | packages/core/src/fields/types/select/index.ts:67-75 | A bare string `s` becomes `{label: humanize(s), value: s}`. An object option is kept as it is. Count and order are preserved. |
| `SelectField.DistinctIffSizes` | packages/core/src/fields/types/select/index.ts:77-78 | The set of option values is as large as the list exactly when no value repeats. |
| `SelectField.SomeOutOfRange` | packages/core/src/fields/types/select/index.ts:131-136 | True exactly when some raw option's value is not an integer in [-2147483648, 2147483647]. A bare string's value is `undefined`. |
| `SelectField.Initialise` | packages/core/src/fields/types/select/index.ts:66-140 | Succeeds, with the normalised options, exactly when the values are distinct and (for an integer field) all signed 32-bit integers. Duplicates give the duplicate-options message, checked first. Otherwise an integer field gives the range message. |
| `SelectField.ValidateHook` | packages/core/src/fields/types/select/index.ts:85-92 | Adds nothing on delete. Otherwise it adds `value is not an accepted option` exactly when the value is neither null nor undefined and is not an option value. |
| `SelectField.OptionsAccepted` | packages/core/src/fields/types/select/index.ts:77-92 | A create or update is accepted exactly when the value is absent, null, or one of the option values; so every option passes. |
| `SelectField.ResolveCreate` | packages/core/src/fields/types/select/index.ts:124-129 | An omitted value becomes the configured default, or null when there is none. A given value, null included, is kept. The result is never undefined. |
| `SelectField.ResolveCreateIdempotent` | packages/core/src/fields/types/select/index.ts:124-129 | Resolving twice is the same as resolving once. |
| `SelectField.GetAdminMeta` | packages/core/src/fields/types/select/index.ts:105-110 | The options are passed through. The type falls back to `string`, the display mode to `select` and the default to null. |
| `SelectField.DbIndex` | packages/core/src/fields/types/select/index.ts:115 | There is no index exactly when `isIndexed` is false or absent. There is a unique index exactly when it is `'unique'`. |
| `SelectField.HasUniqueWhere` | packages/core/src/fields/types/select/index.ts:148 | The unique `where` input exists exactly when the database index is unique. |
| `SelectField.DbDefault` | packages/core/src/fields/types/select/index.ts:116-119 | There is a database default exactly when a default is configured (null included), and it holds that value. |
| `SelectField.CreateArgDefault` | packages/core/src/fields/types/select/index.ts:156 | The create argument's default is the configured one exactly when its kind matches the field: a number for integer fields, a string otherwise. |
| `SelectField.CreateDefaultAgrees` | packages/core/src/fields/types/select/index.ts:153-158 | Whenever the API advertises a create default, the database holds the same default. |
| `FieldValues.Graphql` | packages/core/src/fields/types/integer/views/index.tsx:128-133 | The `where` input has the single key `path`, which holds the filter's condition. |
| `FieldValues.IntToStringRoundTrip` | packages/core/src/fields/types/integer/views/index.tsx:50-53 | The decimal rendering of a bound in a message can be read back as that integer. |
| `FieldValues.NatToStringRoundTrip` | packages/core/src/fields/types/integer/views/index.tsx:50-53 | The digits of a natural number read back as that number. |
| `FieldValues.ParseAll` | packages/core/src/fields/types/integer/views/index.tsx:134-135 | Decoding a condition with a per-entry decoder that yields at most one filter gives at most one filter per entry. A single-entry condition decodes to exactly that entry's filters. |
| `FieldValues.ParseAllEvery` | packages/core/src/fields/types/integer/views/index.tsx:135 | Every filter the condition decodes to comes from one entry, so whatever holds of every entry's filters holds of the result. |
| `IntegerView.ValidateValue` | packages/core/src/fields/types/integer/views/index.tsx:36-54 | It returns no message exactly when the value is acceptable: (1) an exempt or optional null; (2) an integer within the bounds; (3) a non-number. Otherwise it returns the first failing rule's message, checked in order: required, integer, minimum, maximum. |
| `IntegerView.ControllerValidate` | packages/core/src/fields/types/integer/views/index.tsx:65-73 | True exactly when the value is acceptable, where `autoincrement` counts as an auto-increment default. |
| `IntegerView.ControllerDefault` | packages/core/src/fields/types/integer/views/index.tsx:81-85 | A create value: null for `autoincrement`, else the configured default. |
| `IntegerView.Deserialize` | packages/core/src/fields/types/integer/views/index.tsx:86 | An update value whose initial and current values are both the loaded value. |
| `IntegerView.Serialize` | packages/core/src/fields/types/integer/views/index.tsx:87 | The current value, under the field's path. |
| `IntegerView.SerializeDeserialize` | packages/core/src/fields/types/integer/views/index.tsx:86-87 | Serialising and then deserialising keeps the current value, which becomes the initial value too. |
| `IntegerView.LoadedNullSaves` | packages/core/src/fields/types/integer/views/index.tsx:45 | A field loaded as null can be saved unchanged, even when required. |
| `IntegerView.DefaultPassesRequired` | packages/core/src/fields/types/integer/views/index.tsx:44-53 | The form default passes a required check exactly when it is `autoincrement`, or a non-null default that, if it is a number, is an integer within the bounds. |
| `IntegerView.ParseEntry` | packages/core/src/fields/types/integer/views/index.tsx:134-151 | At most one filter per entry. `empty` and `not_empty` carry null. The value operators carry the entry's own truthy value. |
| `IntegerView.ParseGraphQL` | packages/core/src/fields/types/integer/views/index.tsx:135 | At most one filter per entry of the condition. |
| `IntegerView.EncodeDecode` | packages/core/src/fields/types/integer/views/index.tsx:128-151 | Decoding a filter's encoding gives back exactly that filter in four cases: (1) `empty` / `not_empty` with null; (2) `not` with a value other than null / undefined; (3) `equals`, `gt`, `gte`, `lt` or `lte` with a truthy value; (4) no other case. |
| `IntegerView.DecodedRoundTrip` | packages/core/src/fields/types/integer/views/index.tsx:134-151 | Every filter the decoder produces round-trips through the encoder. |
| `IntegerView.OperatorSymbol` | packages/core/src/fields/types/integer/views/index.tsx:18-25 | Exactly the six comparison operators have a symbol. Each symbol is one character that maps back to its operator. |
| `IntegerView.FilterLabel` | packages/core/src/fields/types/integer/views/index.tsx:152-156 | For `empty` / `not_empty`: the lower-cased label. Otherwise: a symbol that names the operator, a space, and the rendered operand. |
| `TimestampView.ValidateValue` | packages/core/src/fields/types/timestamp/views/index.tsx:98-125 | It returns no message exactly when the value is acceptable: (1) non-empty; (2) empty but loaded as null; (3) empty but filled by a `now` default or `updatedAt` on create; (4) empty but not required. Its only message is `<label> is required`. |
| `TimestampView.ControllerValidate` | packages/core/src/fields/types/timestamp/views/index.tsx:167-168 | True exactly when the value is acceptable. |
| `TimestampView.ControllerDefault` | packages/core/src/fields/types/timestamp/views/index.tsx:150-154 | A create value holding the fixed default timestamp. Otherwise it holds null. |
| `TimestampView.Deserialize` | packages/core/src/fields/types/timestamp/views/index.tsx:155-162 | The initial value is the loaded value as read. The current value is the loaded value, with undefined read as null. |
| `TimestampView.Serialize` | packages/core/src/fields/types/timestamp/views/index.tsx:163-166 | The current value under the field's path. Any empty value, the empty string included, is sent as null. |
| `TimestampView.SerializeDeserialize` | packages/core/src/fields/types/timestamp/views/index.tsx:155-166 | Serialising and then deserialising keeps a value exactly when it is non-empty or null. |
| `TimestampView.LoadedNullSaves` | packages/core/src/fields/types/timestamp/views/index.tsx:110 | A field loaded as null can be saved unchanged, even when required. |
| `TimestampView.DefaultPassesRequired` | packages/core/src/fields/types/timestamp/views/index.tsx:112-120 | The form default passes a required check exactly when the database fills the value, or the fixed default is non-empty. |
| `TimestampView.ParseEntry` | packages/core/src/fields/types/timestamp/views/index.tsx:209-225 | At most one filter per entry, never `gte` / `lte`. `empty` and `not_empty` carry null. `equals`, `gt` and `lt` carry the entry's own truthy value. |
| `TimestampView.ParseGraphQL` | packages/core/src/fields/types/timestamp/views/index.tsx:210 | At most one filter per entry of the condition. |
| `TimestampView.EncodeDecode` | packages/core/src/fields/types/timestamp/views/index.tsx:203-225 | Decoding a filter's encoding gives back exactly that filter when the operator is offered and one of these holds: (1) `empty` / `not_empty` with null; (2) `not` with a non-null value; (3) `equals`, `gt` or `lt` with a truthy value. |
| `TimestampView.EncodeDecodeTimestamps` | packages/core/src/fields/types/timestamp/views/index.tsx:203-225 | On non-empty timestamp strings, encoding then decoding is the identity for all six offered operators. |
| `TimestampView.DecodedRoundTrip` | packages/core/src/fields/types/timestamp/views/index.tsx:209-225 | Every filter the decoder produces round-trips through the encoder. |

## Left out

- DocumentStructure.ValidateDocumentStructure: the message body is a stand-in. The schema library renders its issues as a JSON list of codes, paths and texts; that list format is not modelled, and each issue appears as its message escaped as a JSON string body. The `Invalid document structure: ` prefix and each escaped `Invalid URL: <href>` text are exact. Lone UTF-16 surrogates, which JSON escapes as `\uXXXX`, are not characters of this model. Unsafe links at the top level are not promised a URL issue: the top-level union never dispatches `link`, so they are reported only as an unknown type.
- DocumentStructure.DocumentIssuesEmpty: which issues a failing union lists, and how they nest, is not modelled. Only whether any issue exists is exact.
- The URL-safety check, `humanize`, `toLocaleLowerCase` and the rendering of a number in a label are functions of the runtime and its libraries. They enter as parameters.
- JavaScript numbers are modelled as exact reals. NaN, the infinities and `-0` are not values of this model.
- `checkFilterOrderAccess` is asynchronous and calls user rules. The rule outcomes are given as data.
- The error constructors `extensionError`, `accessReturnError` and `filterAccessError` live in graphql-errors, which is not part of this model. Only their arguments are modelled.
- The GraphQL and Prisma builders of the select field are foreign builders and are not modelled. These include the `g.*` types, `filters[provider]`, the enum name from `classify`, `fieldType`, `makeValidateHook` and its `mode`, and `defaultIsRequired`.
- The React components are UI rendering and are not modelled. These are `Field`, `Cell`, `Filter` and the timestamp `Label`; that `Label` formats dates. The filter `types` tables of display strings are not modelled either.
- Date parsing, formatting and time zones are left out: timestamps are opaque strings.
- IntegerView.Bounds: `min` and `max` are integers. The server sends integer bounds for this field.
- SelectField.ValidateHook: option values are compared by value. A JavaScript `Set` compares objects by identity, but the field's configuration types admit only strings and numbers as values.
- The item page, the contextual actions of the relationship field, the nested-mutation tests, the example schema and the smoke tests are UI plumbing or end-to-end tests. None of them is part of this model.
- Objects are key/value lists. A property read returns the first binding of a key, which is what a JavaScript object (which never binds a key twice) returns.
