/**
  Structural validation of rich-text documents
  (packages/fields-document/src/structure-validation.ts).

  A document is an array of block nodes; every element node carries
  `children`, an array that may mix block and inline nodes. Every node kind
  is a strict object: a key outside its declared set is an error.

  The model has two halves that are proved to agree:
  - the grammar (`IsDocument`, `IsBlock`, `IsInline`, `IsChild` and one
    predicate per node kind), stated as a union of node shapes the way the
    schema declares them;
  - the validator (`DocumentIssues`), which dispatches on the `type`
    discriminator, walks the tree and collects located issues; it is what
    `ValidateDocumentStructure` and `IsRelationshipData` run.

  The URL-safety predicate is not part of this model and is a parameter
  (`isValidUrl`) throughout.
*/
module DocumentStructure {
  import opened Json

  /** One step of a path into a value: an array index or an object key. */
  datatype Segment = Index(i: nat) | Key(name: string)

  type Path = seq<Segment>

  datatype Problem =
    | ExpectedArray
    | ExpectedObject
    | UnknownNodeType
    | InvalidProperty(key: string)
    | UnrecognizedKeys(keys: seq<string>)
    | InvalidUrl(href: string)

  datatype Issue = Issue(path: Path, problem: Problem)

  datatype Kind =
    | Text
    | Link
    | Relationship
    | ComponentBlock
    | ComponentProp(tag: string)
    | BasicElement(tag: string)
    | Heading
    | Layout
    | Paragraph

  const MarkKeys: seq<string> :=
    ["bold", "italic", "underline", "strikethrough", "code", "superscript",
     "subscript", "keyboard", "insertMenu"]

  const BasicElementTypes: seq<string> :=
    ["blockquote", "layout-area", "code", "divider", "list-item",
     "list-item-content", "ordered-list", "unordered-list"]

  const ComponentPropTypes: seq<string> := ["component-block-prop", "component-inline-prop"]

  const RelationshipDataKeys: seq<string> := ["id", "label", "data"]

  const StructureErrorPrefix: string := "Invalid document structure: "

  /** The full key set of each strict node shape, `children` included for elements. */
  function AllowedKeys(k: Kind): seq<string>
  {
    match k
    case Text => ["type", "text"] + MarkKeys
    case Link => ["type", "href", "children"]
    case Relationship => ["type", "relationship", "data", "children"]
    case ComponentBlock => ["type", "component", "props", "children"]
    case ComponentProp(_) => ["type", "propPath", "children"]
    case BasicElement(_) => ["type", "children"]
    case Heading => ["type", "textAlign", "level", "children"]
    case Layout => ["type", "layout", "children"]
    case Paragraph => ["type", "textAlign", "children"]
  }

  // ---------------------------------------------------------------------
  // Leaf value shapes

  /** A formatting mark is the literal `true` or absent. */
  predicate IsMarkValue(x: Value)
  {
    x == Undefined || x == Bool(true)
  }

  predicate IsTextAlign(x: Value)
  {
    x == Undefined || x == Str("center") || x == Str("end")
  }

  predicate IsHeadingLevel(x: Value)
  {
    x == Num(1.0) || x == Num(2.0) || x == Num(3.0) || x == Num(4.0) || x == Num(5.0) || x == Num(6.0)
  }

  predicate IsNumberArray(x: Value)
  {
    x.Arr? && forall i :: 0 <= i < |x.items| ==> x.items[i].Num?
  }

  /** An optional array of strings and numbers. */
  predicate IsPropPath(x: Value)
  {
    x == Undefined || (x.Arr? && forall i :: 0 <= i < |x.items| ==> x.items[i].Str? || x.items[i].Num?)
  }

  /** Every key of object `v` is one of `allowed`. */
  predicate OnlyKeys(v: Value, allowed: seq<string>)
    requires v.Obj?
  {
    forall i :: 0 <= i < |v.members| ==> v.members[i].key in allowed
  }

  /** The relationship-data shape: string `id`, optional string `label`, optional record `data`, nothing else. */
  predicate IsRelationshipDataShape(x: Value)
  {
    && x.Obj?
    && OnlyKeys(x, RelationshipDataKeys)
    && Get(x, "id").Str?
    && (Get(x, "label") == Undefined || Get(x, "label").Str?)
    && (Get(x, "data") == Undefined || Get(x, "data").Obj?)
  }

  // ---------------------------------------------------------------------
  // The grammar

  predicate IsDocument(v: Value, isValidUrl: string -> bool)
  {
    v.Arr? && forall i :: 0 <= i < |v.items| ==> IsBlock(v.items[i], isValidUrl)
  }

  predicate IsChild(v: Value, isValidUrl: string -> bool)
    decreases v, 4
  {
    IsBlock(v, isValidUrl) || IsInline(v, isValidUrl)
  }

  predicate IsBlock(v: Value, isValidUrl: string -> bool)
    decreases v, 3
  {
    || IsComponentBlock(v, isValidUrl)
    || IsComponentProp(v, isValidUrl)
    || IsBasicElement(v, isValidUrl)
    || IsHeading(v, isValidUrl)
    || IsLayout(v, isValidUrl)
    || IsParagraph(v, isValidUrl)
  }

  predicate IsInline(v: Value, isValidUrl: string -> bool)
    decreases v, 3
  {
    IsText(v) || IsLink(v, isValidUrl) || IsRelationshipNode(v, isValidUrl)
  }

  /** A text leaf: string `text`, no `type`, marks absent or `true`, and no `children`. */
  predicate IsText(v: Value)
  {
    && v.Obj?
    && OnlyKeys(v, AllowedKeys(Text))
    && Get(v, "type") == Undefined
    && Get(v, "text").Str?
    && forall m :: m in MarkKeys ==> IsMarkValue(Get(v, m))
  }

  predicate IsLink(v: Value, isValidUrl: string -> bool)
    decreases v, 2
  {
    && v.Obj?
    && OnlyKeys(v, AllowedKeys(Link))
    && Get(v, "type") == Str("link")
    && Get(v, "href").Str?
    && isValidUrl(Get(v, "href").s)
    && ChildrenOk(v, isValidUrl)
  }

  predicate IsRelationshipNode(v: Value, isValidUrl: string -> bool)
    decreases v, 2
  {
    && v.Obj?
    && OnlyKeys(v, AllowedKeys(Relationship))
    && Get(v, "type") == Str("relationship")
    && Get(v, "relationship").Str?
    && (Get(v, "data") == Null || IsRelationshipDataShape(Get(v, "data")))
    && ChildrenOk(v, isValidUrl)
  }

  predicate IsComponentBlock(v: Value, isValidUrl: string -> bool)
    decreases v, 2
  {
    && v.Obj?
    && OnlyKeys(v, AllowedKeys(ComponentBlock))
    && Get(v, "type") == Str("component-block")
    && Get(v, "component").Str?
    && Get(v, "props").Obj?
    && ChildrenOk(v, isValidUrl)
  }

  predicate IsComponentProp(v: Value, isValidUrl: string -> bool)
    decreases v, 2
  {
    && v.Obj?
    && Get(v, "type").Str?
    && Get(v, "type").s in ComponentPropTypes
    && OnlyKeys(v, AllowedKeys(ComponentProp(Get(v, "type").s)))
    && IsPropPath(Get(v, "propPath"))
    && ChildrenOk(v, isValidUrl)
  }

  predicate IsBasicElement(v: Value, isValidUrl: string -> bool)
    decreases v, 2
  {
    && v.Obj?
    && Get(v, "type").Str?
    && Get(v, "type").s in BasicElementTypes
    && OnlyKeys(v, AllowedKeys(BasicElement(Get(v, "type").s)))
    && ChildrenOk(v, isValidUrl)
  }

  predicate IsHeading(v: Value, isValidUrl: string -> bool)
    decreases v, 2
  {
    && v.Obj?
    && OnlyKeys(v, AllowedKeys(Heading))
    && Get(v, "type") == Str("heading")
    && IsTextAlign(Get(v, "textAlign"))
    && IsHeadingLevel(Get(v, "level"))
    && ChildrenOk(v, isValidUrl)
  }

  predicate IsLayout(v: Value, isValidUrl: string -> bool)
    decreases v, 2
  {
    && v.Obj?
    && OnlyKeys(v, AllowedKeys(Layout))
    && Get(v, "type") == Str("layout")
    && IsNumberArray(Get(v, "layout"))
    && ChildrenOk(v, isValidUrl)
  }

  predicate IsParagraph(v: Value, isValidUrl: string -> bool)
    decreases v, 2
  {
    && v.Obj?
    && OnlyKeys(v, AllowedKeys(Paragraph))
    && Get(v, "type") == Str("paragraph")
    && IsTextAlign(Get(v, "textAlign"))
    && ChildrenOk(v, isValidUrl)
  }

  /** `children` is present and is an array of block or inline nodes. */
  predicate ChildrenOk(v: Value, isValidUrl: string -> bool)
    requires v.Obj?
    decreases v, 1
  {
    var ms := v.members;
    var j := KeyIndex(ms, "children");
    && j < |ms|
    && ms[j].value.Arr?
    && forall i :: 0 <= i < |ms[j].value.items| ==> IsChild(ms[j].value.items[i], isValidUrl)
  }

  // ---------------------------------------------------------------------
  // The validator

  /** The block discriminator: the node kinds a document may hold at top level. */
  function BlockKind(t: Value): Option<Kind>
  {
    match t
    case Str(s) =>
      if s == "component-block" then Some(ComponentBlock)
      else if s in ComponentPropTypes then Some(ComponentProp(s))
      else if s in BasicElementTypes then Some(BasicElement(s))
      else if s == "heading" then Some(Heading)
      else if s == "layout" then Some(Layout)
      else if s == "paragraph" then Some(Paragraph)
      else None
    case _ => None
  }

  /** The inline discriminator: a missing `type` selects a text leaf. */
  function InlineKind(t: Value): Option<Kind>
  {
    match t
    case Undefined => Some(Text)
    case Str(s) =>
      if s == "link" then Some(Link)
      else if s == "relationship" then Some(Relationship)
      else None
    case _ => None
  }

  /** Inside `children` a node may be either a block or an inline node. */
  function ChildKind(t: Value): Option<Kind>
  {
    if BlockKind(t).Some? then BlockKind(t) else InlineKind(t)
  }

  /** The `type` discriminator of a node kind; a text leaf has none. */
  function TypeName(k: Kind): string
  {
    match k
    case Text => ""
    case Link => "link"
    case Relationship => "relationship"
    case ComponentBlock => "component-block"
    case ComponentProp(t) => t
    case BasicElement(t) => t
    case Heading => "heading"
    case Layout => "layout"
    case Paragraph => "paragraph"
  }

  /** Dispatch selects a kind whose discriminator is the node's `type`. */
  lemma KindTypeName(t: Value, k: Kind)
    requires BlockKind(t) == Some(k) || InlineKind(t) == Some(k)
    ensures k.ComponentProp? ==> k.tag in ComponentPropTypes
    ensures k.BasicElement? ==> k.tag in BasicElementTypes
    ensures t == if k == Text then Undefined else Str(TypeName(k))
  {
  }

  function Check(ok: bool, path: Path, key: string): seq<Issue>
  {
    if ok then [] else [Issue(path + [Key(key)], InvalidProperty(key))]
  }

  function MarkIssues(v: Value, marks: seq<string>, path: Path): seq<Issue>
  {
    if |marks| == 0 then []
    else Check(IsMarkValue(Get(v, marks[0])), path, marks[0]) + MarkIssues(v, marks[1..], path)
  }

  /** A link's `href` must be a string accepted by the URL-safety predicate. */
  function HrefIssues(href: Value, path: Path, isValidUrl: string -> bool): seq<Issue>
  {
    if !href.Str? then [Issue(path + [Key("href")], InvalidProperty("href"))]
    else if isValidUrl(href.s) then []
    else [Issue(path + [Key("href")], InvalidUrl(href.s))]
  }

  /** The keys of `ms` outside `allowed`, in insertion order. */
  function UnknownKeys(ms: seq<Member>, allowed: seq<string>): seq<string>
  {
    if |ms| == 0 then []
    else (if ms[0].key in allowed then [] else [ms[0].key]) + UnknownKeys(ms[1..], allowed)
  }

  function StrictIssues(v: Value, allowed: seq<string>, path: Path): seq<Issue>
    requires v.Obj?
  {
    var unknown := UnknownKeys(v.members, allowed);
    if unknown == [] then [] else [Issue(path, UnrecognizedKeys(unknown))]
  }

  function RelationshipDataIssues(x: Value, path: Path): seq<Issue>
  {
    if !x.Obj? then [Issue(path, ExpectedObject)]
    else
      Check(Get(x, "id").Str?, path, "id")
      + Check(Get(x, "label") == Undefined || Get(x, "label").Str?, path, "label")
      + Check(Get(x, "data") == Undefined || Get(x, "data").Obj?, path, "data")
      + StrictIssues(x, RelationshipDataKeys, path)
  }

  /** Issues with the declared properties of a node of kind `k`, other than `type` (fixed by dispatch) and `children`. */
  function PropertyIssues(v: Value, k: Kind, path: Path, isValidUrl: string -> bool): seq<Issue>
  {
    match k
    case Text => Check(Get(v, "text").Str?, path, "text") + MarkIssues(v, MarkKeys, path)
    case Link => HrefIssues(Get(v, "href"), path, isValidUrl)
    case Relationship =>
      Check(Get(v, "relationship").Str?, path, "relationship")
      + Check(Get(v, "data") == Null || RelationshipDataIssues(Get(v, "data"), []) == [], path, "data")
    case ComponentBlock =>
      Check(Get(v, "component").Str?, path, "component") + Check(Get(v, "props").Obj?, path, "props")
    case ComponentProp(_) => Check(IsPropPath(Get(v, "propPath")), path, "propPath")
    case BasicElement(_) => []
    case Heading =>
      Check(IsTextAlign(Get(v, "textAlign")), path, "textAlign")
      + Check(IsHeadingLevel(Get(v, "level")), path, "level")
    case Layout => Check(IsNumberArray(Get(v, "layout")), path, "layout")
    case Paragraph => Check(IsTextAlign(Get(v, "textAlign")), path, "textAlign")
  }

  /**
    The issues of one node at `path`. At top level only block kinds are
    recognised; inside `children` block and inline kinds are.
  */
  function NodeIssues(v: Value, path: Path, inChildren: bool, isValidUrl: string -> bool): seq<Issue>
    decreases v, 2
  {
    if !v.Obj? then [Issue(path, ExpectedObject)]
    else
      var kind := if inChildren then ChildKind(Get(v, "type")) else BlockKind(Get(v, "type"));
      match kind
      case None => [Issue(path, UnknownNodeType)]
      case Some(k) =>
        PropertyIssues(v, k, path, isValidUrl)
        + (if k == Text then [] else ChildIssues(v, path, isValidUrl))
        + StrictIssues(v, AllowedKeys(k), path)
  }

  function ChildIssues(v: Value, path: Path, isValidUrl: string -> bool): seq<Issue>
    requires v.Obj?
    decreases v, 1
  {
    var ms := v.members;
    var j := KeyIndex(ms, "children");
    if j < |ms| && ms[j].value.Arr? then SeqIssues(ms[j].value.items, path + [Key("children")], 0, true, isValidUrl)
    else [Issue(path + [Key("children")], ExpectedArray)]
  }

  /** The issues of `items`, the first of which sits at index `offset` under `base`. */
  function SeqIssues(items: seq<Value>, base: Path, offset: nat, inChildren: bool, isValidUrl: string -> bool): seq<Issue>
    decreases items, 0
  {
    if |items| == 0 then []
    else
      NodeIssues(items[0], base + [Index(offset)], inChildren, isValidUrl)
      + SeqIssues(items[1..], base, offset + 1, inChildren, isValidUrl)
  }

  function DocumentIssues(v: Value, isValidUrl: string -> bool): seq<Issue>
  {
    if v.Arr? then SeqIssues(v.items, [], 0, false, isValidUrl) else [Issue([], ExpectedArray)]
  }

  // ---------------------------------------------------------------------
  // The validator agrees with the grammar

  /** The grammar predicate of each node kind. */
  predicate HasShape(v: Value, k: Kind, isValidUrl: string -> bool)
  {
    match k
    case Text => IsText(v)
    case Link => IsLink(v, isValidUrl)
    case Relationship => IsRelationshipNode(v, isValidUrl)
    case ComponentBlock => IsComponentBlock(v, isValidUrl)
    case ComponentProp(t) => IsComponentProp(v, isValidUrl) && Get(v, "type") == Str(t)
    case BasicElement(t) => IsBasicElement(v, isValidUrl) && Get(v, "type") == Str(t)
    case Heading => IsHeading(v, isValidUrl)
    case Layout => IsLayout(v, isValidUrl)
    case Paragraph => IsParagraph(v, isValidUrl)
  }

  /** A node kind is a block kind: one the top-level discriminator can select. */
  predicate IsBlockKind(k: Kind)
  {
    !(k.Text? || k.Link? || k.Relationship?)
  }

  /** A node of some shape carries that shape's discriminator, so dispatch selects its kind. */
  lemma KindOfShape(v: Value, k: Kind, isValidUrl: string -> bool)
    requires HasShape(v, k, isValidUrl)
    ensures IsBlockKind(k) ==> BlockKind(Get(v, "type")) == Some(k)
    ensures !IsBlockKind(k) ==> InlineKind(Get(v, "type")) == Some(k)
  {
    if k.ComponentProp? {
      PropKind(v, k.tag);
    } else if k.BasicElement? {
      BasicKind(v, k.tag);
    } else if IsBlockKind(k) {
      NamedBlockKind(v, k, isValidUrl);
    }
  }

  lemma PropKind(v: Value, t: string)
    requires Get(v, "type") == Str(t) && t in ComponentPropTypes
    ensures BlockKind(Get(v, "type")) == Some(ComponentProp(t))
  {
  }

  lemma BasicKind(v: Value, t: string)
    requires Get(v, "type") == Str(t) && t in BasicElementTypes
    ensures BlockKind(Get(v, "type")) == Some(BasicElement(t))
  {
  }

  lemma NamedBlockKind(v: Value, k: Kind, isValidUrl: string -> bool)
    requires HasShape(v, k, isValidUrl) && IsBlockKind(k) && !k.ComponentProp? && !k.BasicElement?
    ensures BlockKind(Get(v, "type")) == Some(k)
  {
    match k
    case ComponentBlock =>
      assert Get(v, "type") == Str("component-block");
    case Heading =>
      assert Get(v, "type") == Str("heading");
      HeadingKind();
    case Layout =>
      assert Get(v, "type") == Str("layout");
      LayoutKind();
    case Paragraph =>
      assert Get(v, "type") == Str("paragraph");
      ParagraphKind();
  }

  lemma HeadingKind()
    ensures BlockKind(Str("heading")) == Some(Heading)
  {
  }

  lemma LayoutKind()
    ensures BlockKind(Str("layout")) == Some(Layout)
  {
  }

  lemma ParagraphKind()
    ensures BlockKind(Str("paragraph")) == Some(Paragraph)
  {
  }

  /** The top-level discriminator only selects block kinds, the inline one only inline kinds. */
  lemma DispatchKinds(t: Value)
    ensures BlockKind(t).Some? ==> IsBlockKind(BlockKind(t).value)
    ensures InlineKind(t).Some? ==> !IsBlockKind(InlineKind(t).value)
  {
  }

  lemma BlockDispatch(v: Value, isValidUrl: string -> bool)
    requires v.Obj?
    ensures IsBlock(v, isValidUrl) <==>
              (var k := BlockKind(Get(v, "type")); k.Some? && HasShape(v, k.value, isValidUrl))
  {
    var t := Get(v, "type");
    DispatchKinds(t);
    if IsComponentBlock(v, isValidUrl) {
      KindOfShape(v, ComponentBlock, isValidUrl);
    } else if IsComponentProp(v, isValidUrl) {
      KindOfShape(v, ComponentProp(t.s), isValidUrl);
    } else if IsBasicElement(v, isValidUrl) {
      KindOfShape(v, BasicElement(t.s), isValidUrl);
    } else if IsHeading(v, isValidUrl) {
      KindOfShape(v, Heading, isValidUrl);
    } else if IsLayout(v, isValidUrl) {
      KindOfShape(v, Layout, isValidUrl);
    } else if IsParagraph(v, isValidUrl) {
      KindOfShape(v, Paragraph, isValidUrl);
    } else if BlockKind(t).Some? {
      var k := BlockKind(t).value;
      KindTypeName(t, k);
      assert !HasShape(v, k, isValidUrl);
    }
  }

  lemma InlineDispatch(v: Value, isValidUrl: string -> bool)
    requires v.Obj?
    ensures IsInline(v, isValidUrl) <==>
              (var k := InlineKind(Get(v, "type")); k.Some? && HasShape(v, k.value, isValidUrl))
  {
    var t := Get(v, "type");
    DispatchKinds(t);
    if IsText(v) {
      KindOfShape(v, Text, isValidUrl);
    } else if IsLink(v, isValidUrl) {
      KindOfShape(v, Link, isValidUrl);
    } else if IsRelationshipNode(v, isValidUrl) {
      KindOfShape(v, Relationship, isValidUrl);
    } else if InlineKind(t).Some? {
      var k := InlineKind(t).value;
      assert !HasShape(v, k, isValidUrl);
    }
  }

  lemma ChildDispatch(v: Value, isValidUrl: string -> bool)
    requires v.Obj?
    ensures IsChild(v, isValidUrl) <==>
              (var k := ChildKind(Get(v, "type")); k.Some? && HasShape(v, k.value, isValidUrl))
  {
    BlockDispatch(v, isValidUrl);
    InlineDispatch(v, isValidUrl);
    var t := Get(v, "type");
    if BlockKind(t).Some? && InlineKind(t).Some? {
      assert t.Str?;
    }
  }

  lemma {:induction false} MarkIssuesEmpty(v: Value, marks: seq<string>, path: Path)
    ensures MarkIssues(v, marks, path) == [] <==> forall m :: m in marks ==> IsMarkValue(Get(v, m))
  {
    if |marks| > 0 {
      MarkIssuesEmpty(v, marks[1..], path);
      assert forall m :: m in marks <==> m == marks[0] || m in marks[1..];
    }
  }

  lemma {:induction false} UnknownKeysEmpty(ms: seq<Member>, allowed: seq<string>)
    ensures UnknownKeys(ms, allowed) == [] <==> forall i :: 0 <= i < |ms| ==> ms[i].key in allowed
  {
    if |ms| > 0 {
      UnknownKeysEmpty(ms[1..], allowed);
      assert forall i :: 1 <= i < |ms| ==> ms[i] == ms[1..][i - 1];
    }
  }

  lemma RelationshipDataIssuesEmpty(x: Value, path: Path)
    ensures RelationshipDataIssues(x, path) == [] <==> IsRelationshipDataShape(x)
  {
    if x.Obj? {
      UnknownKeysEmpty(x.members, RelationshipDataKeys);
    }
  }

  /** For a node of kind `k`, the grammar's shape is the declared properties, `children` and strictness. */
  lemma ShapeParts(v: Value, k: Kind, path: Path, isValidUrl: string -> bool)
    requires v.Obj?
    requires k.ComponentProp? || k.BasicElement? ==> Get(v, "type") == Str(k.tag)
    requires k.ComponentProp? ==> k.tag in ComponentPropTypes
    requires k.BasicElement? ==> k.tag in BasicElementTypes
    requires !k.ComponentProp? && !k.BasicElement? ==> Get(v, "type") == if k == Text then Undefined else Str(TypeName(k))
    ensures HasShape(v, k, isValidUrl) <==>
              && PropertyIssues(v, k, path, isValidUrl) == []
              && (k != Text ==> ChildrenOk(v, isValidUrl))
              && OnlyKeys(v, AllowedKeys(k))
  {
    match k
    case Text => MarkIssuesEmpty(v, MarkKeys, path);
    case Relationship => RelationshipDataIssuesEmpty(Get(v, "data"), []);
    case _ =>
  }

  lemma {:induction false} NodeIssuesEmpty(v: Value, path: Path, inChildren: bool, isValidUrl: string -> bool)
    ensures NodeIssues(v, path, inChildren, isValidUrl) == [] <==>
              if inChildren then IsChild(v, isValidUrl) else IsBlock(v, isValidUrl)
    decreases v, 2
  {
    if v.Obj? {
      var t := Get(v, "type");
      var kind := if inChildren then ChildKind(t) else BlockKind(t);
      if inChildren { ChildDispatch(v, isValidUrl); } else { BlockDispatch(v, isValidUrl); }
      if kind.Some? {
        var k := kind.value;
        KindTypeName(t, k);
        ShapeParts(v, k, path, isValidUrl);
        UnknownKeysEmpty(v.members, AllowedKeys(k));
        if k != Text {
          ChildIssuesEmpty(v, path, isValidUrl);
        }
      }
    } else {
      NotObjectNoNode(v, isValidUrl);
    }
  }

  /** Every node shape is an object. */
  lemma NotObjectNoNode(v: Value, isValidUrl: string -> bool)
    requires !v.Obj?
    ensures !IsBlock(v, isValidUrl) && !IsInline(v, isValidUrl)
  {
    assert !IsComponentBlock(v, isValidUrl) && !IsComponentProp(v, isValidUrl);
    assert !IsBasicElement(v, isValidUrl) && !IsHeading(v, isValidUrl);
    assert !IsLayout(v, isValidUrl) && !IsParagraph(v, isValidUrl);
    assert !IsText(v) && !IsLink(v, isValidUrl) && !IsRelationshipNode(v, isValidUrl);
  }

  lemma {:induction false} ChildIssuesEmpty(v: Value, path: Path, isValidUrl: string -> bool)
    requires v.Obj?
    ensures ChildIssues(v, path, isValidUrl) == [] <==> ChildrenOk(v, isValidUrl)
    decreases v, 1
  {
    var ms := v.members;
    var j := KeyIndex(ms, "children");
    if j < |ms| && ms[j].value.Arr? {
      SeqIssuesEmpty(ms[j].value.items, path + [Key("children")], 0, true, isValidUrl);
    }
  }

  lemma {:induction false} SeqIssuesEmpty(items: seq<Value>, base: Path, offset: nat, inChildren: bool, isValidUrl: string -> bool)
    ensures SeqIssues(items, base, offset, inChildren, isValidUrl) == [] <==>
              forall i :: 0 <= i < |items| ==>
                if inChildren then IsChild(items[i], isValidUrl) else IsBlock(items[i], isValidUrl)
    decreases items, 0
  {
    if |items| > 0 {
      NodeIssuesEmpty(items[0], base + [Index(offset)], inChildren, isValidUrl);
      SeqIssuesEmpty(items[1..], base, offset + 1, inChildren, isValidUrl);
      assert forall i :: 1 <= i < |items| ==> items[i] == items[1..][i - 1];
    }
  }

  /** The validator reports no issue exactly when the value is a document of the grammar. */
  lemma DocumentIssuesEmpty(v: Value, isValidUrl: string -> bool)
    ensures DocumentIssues(v, isValidUrl) == [] <==> IsDocument(v, isValidUrl)
  {
    if v.Arr? {
      SeqIssuesEmpty(v.items, [], 0, false, isValidUrl);
    }
  }

  // ---------------------------------------------------------------------
  // Entry points

  datatype Validation = Valid(nodes: seq<Value>) | Invalid(message: string)

  /** The text of one issue; only the URL message is fixed by the schema, the rest stand in for the schema library's wording. */
  function ProblemMessage(p: Problem): string
  {
    match p
    case ExpectedArray => "Expected array"
    case ExpectedObject => "Expected object"
    case UnknownNodeType => "Invalid discriminator value"
    case InvalidProperty(key) => "Invalid value for " + key
    case UnrecognizedKeys(_) => "Unrecognized key(s) in object"
    case InvalidUrl(href) => "Invalid URL: " + href
  }

  /** Each issue's message as it appears inside the JSON list of issues: escaped as a string literal. */
  function Render(issues: seq<Issue>): string
  {
    if |issues| == 0 then ""
    else Escape(ProblemMessage(issues[0].problem)) + "\n" + Render(issues[1..])
  }

  /** The fixed part of the URL message needs no escaping, so only the `href` is escaped. */
  lemma UrlMessageEscape(h: string)
    ensures Escape("Invalid URL: " + h) == "Invalid URL: " + Escape(h)
  {
    PlainPrefix("Invalid URL: ", h);
  }

  /** `needle` occurs in `hay` at position `k`. */
  predicate OccursAt(hay: string, needle: string, k: int)
  {
    0 <= k && k + |needle| <= |hay| && hay[k..k + |needle|] == needle
  }

  ghost predicate Contains(hay: string, needle: string)
  {
    exists k :: OccursAt(hay, needle, k)
  }

  lemma ContainsShift(pre: string, hay: string, needle: string)
    requires Contains(hay, needle)
    ensures Contains(pre + hay, needle)
  {
    var k :| OccursAt(hay, needle, k);
    assert (pre + hay)[|pre| + k..|pre| + k + |needle|] == needle;
    assert OccursAt(pre + hay, needle, |pre| + k);
  }

  /** Every URL issue contributes its `Invalid URL: <href>` text, with the `href` escaped, to the rendered message. */
  lemma {:induction false} RenderMentionsUrl(issues: seq<Issue>, q: Path, h: string)
    requires Issue(q, InvalidUrl(h)) in issues
    ensures Contains(Render(issues), "Invalid URL: " + Escape(h))
  {
    var first := Escape(ProblemMessage(issues[0].problem)) + "\n";
    assert Render(issues) == first + Render(issues[1..]);
    if issues[0] == Issue(q, InvalidUrl(h)) {
      var needle := "Invalid URL: " + Escape(h);
      UrlMessageEscape(h);
      assert Render(issues)[0..|needle|] == needle;
      assert OccursAt(Render(issues), needle, 0);
    } else {
      RenderMentionsUrl(issues[1..], q, h);
      ContainsShift(first, Render(issues[1..]), "Invalid URL: " + Escape(h));
    }
  }

  /**
    Validates `value` as a document: it returns the nodes unchanged when the
    value is an array of block nodes, and otherwise an error whose message
    starts with the structure-error prefix and quotes, escaped, the `href` of
    every unsafe link the validator reaches.
  */
  function ValidateDocumentStructure(value: Value, isValidUrl: string -> bool): (r: Validation)
    ensures r.Valid? <==> IsDocument(value, isValidUrl)
    ensures r.Valid? ==> value == Arr(r.nodes)
    ensures r.Invalid? ==> |StructureErrorPrefix| <= |r.message| && r.message[..|StructureErrorPrefix|] == StructureErrorPrefix
    ensures r.Invalid? ==> forall q, h :: Issue(q, InvalidUrl(h)) in DocumentIssues(value, isValidUrl) ==>
                                          Contains(r.message, "Invalid URL: " + Escape(h))
    ensures forall p, h :: UnsafeLinkAt(value, p, h, isValidUrl) ==>
                             r.Invalid? && Contains(r.message, "Invalid URL: " + Escape(h))
  {
    DocumentIssuesEmpty(value, isValidUrl);
    ReachedLinksIssued(value, isValidUrl);
    var issues := DocumentIssues(value, isValidUrl);
    if issues == [] then Valid(value.items)
    else
      MessageQuotesUrls(issues);
      Invalid(StructureErrorPrefix + Render(issues))
  }

  /** The message built from a list of issues quotes the escaped `href` of every URL issue in it. */
  lemma MessageQuotesUrls(issues: seq<Issue>)
    ensures forall q, h :: Issue(q, InvalidUrl(h)) in issues ==>
                             Contains(StructureErrorPrefix + Render(issues), "Invalid URL: " + Escape(h))
  {
    forall q, h | Issue(q, InvalidUrl(h)) in issues
      ensures Contains(StructureErrorPrefix + Render(issues), "Invalid URL: " + Escape(h))
    {
      RenderMentionsUrl(issues, q, h);
      ContainsShift(StructureErrorPrefix, Render(issues), "Invalid URL: " + Escape(h));
    }
  }

  /** A relationship-data value: string `id`, optional string `label`, optional record `data`, and no other key. */
  function IsRelationshipData(value: Value): (r: bool)
    ensures r <==> IsRelationshipDataShape(value)
  {
    RelationshipDataIssuesEmpty(value, []);
    RelationshipDataIssues(value, []) == []
  }

  // ---------------------------------------------------------------------
  // A URL issue locates an unsafe link

  /** The value reached by following `path` from `v`; `undefined` once the path leaves the value. */
  function At(v: Value, path: Path): Value
    decreases |path|
  {
    if |path| == 0 then v
    else match path[0]
      case Index(i) => if v.Arr? && i < |v.items| then At(v.items[i], path[1..]) else Undefined
      case Key(k) => At(Get(v, k), path[1..])
  }

  lemma {:induction false} AtUndefined(path: Path)
    ensures At(Undefined, path) == Undefined
    decreases |path|
  {
    if |path| > 0 {
      AtUndefined(path[1..]);
    }
  }

  lemma {:induction false} AtAppend(v: Value, a: Path, b: Path)
    ensures At(v, a + b) == At(At(v, a), b)
    decreases |a|
  {
    if |a| == 0 {
      assert a + b == b;
    } else {
      assert (a + b)[0] == a[0];
      assert (a + b)[1..] == a[1..] + b;
      match a[0]
      case Index(i) =>
        if v.Arr? && i < |v.items| {
          AtAppend(v.items[i], a[1..], b);
        } else {
          AtUndefined(b);
        }
      case Key(k) =>
        AtAppend(Get(v, k), a[1..], b);
    }
  }

  /** `rel` leads from `v` to the `href` string `h` of a link node, and `h` is not a safe URL. */
  predicate LocatesBadLink(v: Value, rel: Path, h: string, isValidUrl: string -> bool)
  {
    && |rel| >= 1
    && rel[|rel| - 1] == Key("href")
    && At(v, rel) == Str(h)
    && Get(At(v, rel[..|rel| - 1]), "type") == Str("link")
    && !isValidUrl(h)
  }

  lemma LocatesLift(v: Value, step: Path, rel: Path, h: string, isValidUrl: string -> bool)
    requires LocatesBadLink(At(v, step), rel, h, isValidUrl)
    ensures LocatesBadLink(v, step + rel, h, isValidUrl)
  {
    AtAppend(v, step, rel);
    AtAppend(v, step, rel[..|rel| - 1]);
    assert (step + rel)[..|step + rel| - 1] == step + rel[..|rel| - 1];
  }

  lemma {:induction false} NodeUrlIssue(v: Value, path: Path, inChildren: bool, isValidUrl: string -> bool, q: Path, h: string)
    requires Issue(q, InvalidUrl(h)) in NodeIssues(v, path, inChildren, isValidUrl)
    ensures exists rel :: q == path + rel && LocatesBadLink(v, rel, h, isValidUrl)
    decreases v, 2
  {
    var kind := if inChildren then ChildKind(Get(v, "type")) else BlockKind(Get(v, "type"));
    var k := kind.value;
    var props := PropertyIssues(v, k, path, isValidUrl);
    var children := if k == Text then [] else ChildIssues(v, path, isValidUrl);
    var strict := StrictIssues(v, AllowedKeys(k), path);
    assert NodeIssues(v, path, inChildren, isValidUrl) == props + children + strict;
    if Issue(q, InvalidUrl(h)) in props {
      PropertyUrlIssue(v, k, path, isValidUrl, q, h);
      KindTypeName(Get(v, "type"), k);
      HrefLocated(v, h, isValidUrl);
    } else if Issue(q, InvalidUrl(h)) in children {
      ChildUrlIssue(v, path, isValidUrl, q, h);
    }
  }

  /** Among a node's property issues, only a link's unsafe `href` is a URL issue. */
  lemma PropertyUrlIssue(v: Value, k: Kind, path: Path, isValidUrl: string -> bool, q: Path, h: string)
    requires Issue(q, InvalidUrl(h)) in PropertyIssues(v, k, path, isValidUrl)
    ensures k == Link && q == path + [Key("href")] && Get(v, "href") == Str(h) && !isValidUrl(h)
  {
    if k == Text {
      MarkIssuesNoUrl(v, MarkKeys, path);
    }
  }

  /** A link whose `href` is the unsafe `h` is located by the one-step path `[href]`. */
  lemma HrefLocated(v: Value, h: string, isValidUrl: string -> bool)
    requires Get(v, "type") == Str("link") && Get(v, "href") == Str(h) && !isValidUrl(h)
    ensures LocatesBadLink(v, [Key("href")], h, isValidUrl)
  {
    assert [Key("href")][1..] == [];
    assert [Key("href")][..0] == [];
  }

  lemma {:induction false} MarkIssuesNoUrl(v: Value, marks: seq<string>, path: Path)
    ensures forall i :: 0 <= i < |MarkIssues(v, marks, path)| ==> MarkIssues(v, marks, path)[i].problem.InvalidProperty?
  {
    if |marks| > 0 {
      MarkIssuesNoUrl(v, marks[1..], path);
    }
  }

  /** The `i`-th child of an element sits at `[children, i]` below it. */
  lemma AtChild(v: Value, i: nat)
    requires v.Obj?
    requires var j := KeyIndex(v.members, "children"); j < |v.members| && v.members[j].value.Arr?
    requires i < |Get(v, "children").items|
    ensures At(v, [Key("children"), Index(i)]) == Get(v, "children").items[i]
  {
    var step := [Key("children"), Index(i)];
    assert step[1..] == [Index(i)];
    assert step[1..][1..] == [];
    assert At(v, step) == At(Get(v, "children"), [Index(i)]);
    assert At(Get(v, "children"), [Index(i)]) == At(Get(v, "children").items[i], []);
  }

  lemma {:induction false} ChildUrlIssue(v: Value, path: Path, isValidUrl: string -> bool, q: Path, h: string)
    requires v.Obj?
    requires Issue(q, InvalidUrl(h)) in ChildIssues(v, path, isValidUrl)
    ensures exists rel :: q == path + rel && LocatesBadLink(v, rel, h, isValidUrl)
    decreases v, 1
  {
    var ms := v.members;
    var j := KeyIndex(ms, "children");
    assert j < |ms| && ms[j].value.Arr?;
    var items := ms[j].value.items;
    var base := path + [Key("children")];
    assert ChildIssues(v, path, isValidUrl) == SeqIssues(items, base, 0, true, isValidUrl);
    SeqUrlIssue(items, base, 0, true, isValidUrl, q, h);
    var i, rel :| SeqWitness(items, base, 0, q, i, rel, h, isValidUrl);
    ChildWitnessLift(v, path, i, rel, q, h, isValidUrl);
    var found := [Key("children"), Index(i)] + rel;
    assert q == path + found && LocatesBadLink(v, found, h, isValidUrl);
  }

  /** A witness among an element's children locates the link from the element itself. */
  lemma ChildWitnessLift(v: Value, path: Path, i: int, rel: Path, q: Path, h: string, isValidUrl: string -> bool)
    requires v.Obj?
    requires var j := KeyIndex(v.members, "children"); j < |v.members| && v.members[j].value.Arr?
    requires SeqWitness(Get(v, "children").items, path + [Key("children")], 0, q, i, rel, h, isValidUrl)
    ensures q == path + ([Key("children"), Index(i)] + rel)
    ensures LocatesBadLink(v, [Key("children"), Index(i)] + rel, h, isValidUrl)
  {
    var step := [Key("children"), Index(i)];
    AtChild(v, i);
    LocatesLift(v, step, rel, h, isValidUrl);
  }

  /** Issue path `q` is `rel` below the `i`-th of `items`, and `rel` locates an unsafe link there. */
  predicate SeqWitness(items: seq<Value>, base: Path, offset: nat, q: Path, i: int, rel: Path, h: string, isValidUrl: string -> bool)
  {
    && 0 <= i < |items|
    && q == base + [Index(offset + i)] + rel
    && LocatesBadLink(items[i], rel, h, isValidUrl)
  }

  lemma {:induction false} SeqUrlIssue(items: seq<Value>, base: Path, offset: nat, inChildren: bool, isValidUrl: string -> bool, q: Path, h: string)
    requires Issue(q, InvalidUrl(h)) in SeqIssues(items, base, offset, inChildren, isValidUrl)
    ensures exists i, rel :: SeqWitness(items, base, offset, q, i, rel, h, isValidUrl)
    decreases items, 0
  {
    var path := base + [Index(offset)];
    var head := NodeIssues(items[0], path, inChildren, isValidUrl);
    var tail := SeqIssues(items[1..], base, offset + 1, inChildren, isValidUrl);
    assert SeqIssues(items, base, offset, inChildren, isValidUrl) == head + tail;
    if Issue(q, InvalidUrl(h)) in head {
      NodeUrlIssue(items[0], path, inChildren, isValidUrl, q, h);
      SeqWitnessHead(items, base, offset, q, h, isValidUrl);
    } else {
      SeqUrlIssue(items[1..], base, offset + 1, inChildren, isValidUrl, q, h);
      SeqWitnessTail(items, base, offset, offset + 1, q, h, isValidUrl);
    }
  }

  lemma SeqWitnessHead(items: seq<Value>, base: Path, offset: nat, q: Path, h: string, isValidUrl: string -> bool)
    requires |items| > 0
    requires exists rel :: q == base + [Index(offset)] + rel && LocatesBadLink(items[0], rel, h, isValidUrl)
    ensures exists i, rel :: SeqWitness(items, base, offset, q, i, rel, h, isValidUrl)
  {
    var rel :| q == base + [Index(offset)] + rel && LocatesBadLink(items[0], rel, h, isValidUrl);
    assert SeqWitness(items, base, offset, q, 0, rel, h, isValidUrl);
  }

  lemma SeqWitnessTail(items: seq<Value>, base: Path, offset: nat, next: nat, q: Path, h: string, isValidUrl: string -> bool)
    requires |items| > 0 && next == offset + 1
    requires exists i, rel :: SeqWitness(items[1..], base, next, q, i, rel, h, isValidUrl)
    ensures exists i, rel :: SeqWitness(items, base, offset, q, i, rel, h, isValidUrl)
  {
    var i, rel :| SeqWitness(items[1..], base, next, q, i, rel, h, isValidUrl);
    assert items[1..][i] == items[i + 1];
    assert SeqWitness(items, base, offset, q, i + 1, rel, h, isValidUrl);
  }

  /**
    Every URL issue the validator reports points, by its path, at the
    `href` of a link node in the document, and that `href` is unsafe.
  */
  lemma UrlIssueLocatesLink(value: Value, isValidUrl: string -> bool, q: Path, h: string)
    requires Issue(q, InvalidUrl(h)) in DocumentIssues(value, isValidUrl)
    ensures LocatesBadLink(value, q, h, isValidUrl)
  {
    var items := value.items;
    SeqUrlIssue(items, [], 0, false, isValidUrl, q, h);
    var i, rel :| SeqWitness(items, [], 0, q, i, rel, h, isValidUrl);
    var step := [Index(i)];
    assert At(value, step) == items[i] by {
      assert step[1..] == [];
    }
    LocatesLift(value, step, rel, h, isValidUrl);
    assert q == step + rel;
  }

  // ---------------------------------------------------------------------
  // Every unsafe link the validator reaches is reported

  /** The kind the validator dispatches a node to: block kinds at the top level, any kind inside `children`. */
  function NodeKind(v: Value, inChildren: bool): Option<Kind>
  {
    if inChildren then ChildKind(Get(v, "type")) else BlockKind(Get(v, "type"))
  }

  /** The node holds `children`, and it is an array. */
  predicate HasChildArray(v: Value)
    requires v.Obj?
  {
    var j := KeyIndex(v.members, "children");
    j < |v.members| && v.members[j].value.Arr?
  }

  /**
    `rel` is a chain of `[children, i]` steps that the validator follows from
    node `v` (visited at the top level, or inside `children`): each node on
    the way dispatches to an element kind and holds an array of children.
  */
  predicate Descends(v: Value, inChildren: bool, rel: Path)
    decreases |rel|
  {
    if |rel| == 0 then true
    else
      && |rel| >= 2 && rel[0] == Key("children") && rel[1].Index?
      && v.Obj?
      && NodeKind(v, inChildren).Some? && NodeKind(v, inChildren).value != Text
      && HasChildArray(v)
      && rel[1].i < |Get(v, "children").items|
      && Descends(Get(v, "children").items[rel[1].i], true, rel[2..])
  }

  /** `p` leads from the document `value` to a node that sits inside some element's `children` and that the validator visits. */
  predicate ReachedChild(value: Value, p: Path)
  {
    && value.Arr?
    && |p| >= 2 && p[0].Index? && p[0].i < |value.items|
    && Descends(value.items[p[0].i], false, p[1..])
  }

  /** `n` is a link node whose `href` is the string `h`, and `h` is not a safe URL. */
  predicate UnsafeLink(n: Value, h: string, isValidUrl: string -> bool)
  {
    n.Obj? && Get(n, "type") == Str("link") && Get(n, "href") == Str(h) && !isValidUrl(h)
  }

  /** `link` is no block discriminator, so only `children` dispatch a link. */
  lemma LinkKinds()
    ensures BlockKind(Str("link")) == None
    ensures ChildKind(Str("link")) == Some(Link)
  {
  }

  /** Each node's issues appear, in the issues of the sequence holding it. */
  lemma {:induction false} SeqIssuesHas(items: seq<Value>, base: Path, offset: nat, inChildren: bool,
                                        isValidUrl: string -> bool, j: nat, x: Issue)
    requires j < |items| && x in NodeIssues(items[j], base + [Index(offset + j)], inChildren, isValidUrl)
    ensures x in SeqIssues(items, base, offset, inChildren, isValidUrl)
    decreases j
  {
    assert SeqIssues(items, base, offset, inChildren, isValidUrl)
           == NodeIssues(items[0], base + [Index(offset)], inChildren, isValidUrl)
              + SeqIssues(items[1..], base, offset + 1, inChildren, isValidUrl);
    if j > 0 {
      assert items[1..][j - 1] == items[j];
      SeqIssuesHas(items[1..], base, offset + 1, inChildren, isValidUrl, j - 1, x);
    }
  }

  /** An unsafe link visited inside `children` raises the URL issue at its `href`. */
  lemma LinkReportsUrl(v: Value, path: Path, h: string, isValidUrl: string -> bool)
    requires UnsafeLink(v, h, isValidUrl)
    ensures Issue(path + [Key("href")], InvalidUrl(h)) in NodeIssues(v, path, true, isValidUrl)
  {
    LinkKinds();
    var props := PropertyIssues(v, Link, path, isValidUrl);
    assert props == [Issue(path + [Key("href")], InvalidUrl(h))];
    assert NodeIssues(v, path, true, isValidUrl)
           == props + ChildIssues(v, path, isValidUrl) + StrictIssues(v, AllowedKeys(Link), path);
  }

  /** An element's issues include those of its children. */
  lemma ChildIssuesIncluded(v: Value, path: Path, inChildren: bool, isValidUrl: string -> bool, x: Issue)
    requires v.Obj? && NodeKind(v, inChildren).Some? && NodeKind(v, inChildren).value != Text
    requires x in ChildIssues(v, path, isValidUrl)
    ensures x in NodeIssues(v, path, inChildren, isValidUrl)
  {
    var k := NodeKind(v, inChildren).value;
    assert NodeIssues(v, path, inChildren, isValidUrl)
           == PropertyIssues(v, k, path, isValidUrl) + ChildIssues(v, path, isValidUrl)
              + StrictIssues(v, AllowedKeys(k), path);
  }

  /** Following the validator down `rel` to an unsafe link, the link's URL issue is among the issues of the start node. */
  lemma {:induction false} DescendsReports(v: Value, inChildren: bool, rel: Path, path: Path, h: string,
                                           isValidUrl: string -> bool)
    requires Descends(v, inChildren, rel)
    requires inChildren || |rel| > 0
    requires UnsafeLink(At(v, rel), h, isValidUrl)
    ensures Issue(path + rel + [Key("href")], InvalidUrl(h)) in NodeIssues(v, path, inChildren, isValidUrl)
    decreases |rel|
  {
    if |rel| == 0 {
      assert path + rel == path;
      LinkReportsUrl(v, path, h, isValidUrl);
    } else {
      var j := rel[1].i;
      var rest := rel[2..];
      var childPath := path + [Key("children"), Index(j)];
      StepAt(v, inChildren, rel);
      DescendsReports(Get(v, "children").items[j], true, rest, childPath, h, isValidUrl);
      assert childPath == path + [rel[0], rel[1]];
      PathSplit(path, rel, [Key("href")]);
      ChildIssueLifts(v, inChildren, path, j, Issue(path + rel + [Key("href")], InvalidUrl(h)), isValidUrl);
    }
  }

  lemma PathSplit(path: Path, rel: Path, tail: Path)
    requires |rel| >= 2
    ensures path + [rel[0], rel[1]] + rel[2..] + tail == path + rel + tail
  {
    assert rel == [rel[0], rel[1]] + rel[2..];
  }

  /** One `[children, j]` step of a descent leads to the `j`-th child. */
  lemma StepAt(v: Value, inChildren: bool, rel: Path)
    requires Descends(v, inChildren, rel) && |rel| > 0
    ensures At(v, rel) == At(Get(v, "children").items[rel[1].i], rel[2..])
  {
    var j := rel[1].i;
    var step := [Key("children"), Index(j)];
    assert rel == step + rel[2..];
    AtAppend(v, step, rel[2..]);
    AtChild(v, j);
  }

  /** An issue of the `j`-th child of an element is an issue of the element. */
  lemma ChildIssueLifts(v: Value, inChildren: bool, path: Path, j: nat, x: Issue, isValidUrl: string -> bool)
    requires v.Obj? && NodeKind(v, inChildren).Some? && NodeKind(v, inChildren).value != Text
    requires HasChildArray(v) && j < |Get(v, "children").items|
    requires x in NodeIssues(Get(v, "children").items[j], path + [Key("children"), Index(j)], true, isValidUrl)
    ensures x in NodeIssues(v, path, inChildren, isValidUrl)
  {
    var items := Get(v, "children").items;
    var base := path + [Key("children")];
    assert base + [Index(0 + j)] == path + [Key("children"), Index(j)];
    SeqIssuesHas(items, base, 0, true, isValidUrl, j, x);
    assert ChildIssues(v, path, isValidUrl) == SeqIssues(items, base, 0, true, isValidUrl);
    ChildIssuesIncluded(v, path, inChildren, isValidUrl, x);
  }

  /**
    Every unsafe link the validator reaches inside `children` is reported,
    with its exact path: the converse of `UrlIssueLocatesLink`.
  */
  lemma UnsafeLinkIssued(value: Value, p: Path, h: string, isValidUrl: string -> bool)
    requires ReachedChild(value, p) && UnsafeLink(At(value, p), h, isValidUrl)
    ensures Issue(p + [Key("href")], InvalidUrl(h)) in DocumentIssues(value, isValidUrl)
  {
    var i := p[0].i;
    TopStepAt(value, p);
    DescendsReports(value.items[i], false, p[1..], [p[0]], h, isValidUrl);
    TopPath(p, [Key("href")]);
    TopIssueLifts(value, i, Issue(p + [Key("href")], InvalidUrl(h)), isValidUrl);
  }

  /** The first step of a reached path selects a top-level node. */
  lemma TopStepAt(value: Value, p: Path)
    requires ReachedChild(value, p)
    ensures At(value, p) == At(value.items[p[0].i], p[1..])
  {
    var step := [p[0]];
    assert p == step + p[1..];
    AtAppend(value, step, p[1..]);
    assert At(value, step) == value.items[p[0].i] by {
      assert step[1..] == [];
    }
  }

  lemma TopPath(p: Path, tail: Path)
    requires |p| >= 1
    ensures [p[0]] + p[1..] + tail == p + tail
  {
    assert p == [p[0]] + p[1..];
  }

  /** An issue of the `i`-th top-level node is an issue of the document. */
  lemma TopIssueLifts(value: Value, i: nat, x: Issue, isValidUrl: string -> bool)
    requires value.Arr? && i < |value.items|
    requires x in NodeIssues(value.items[i], [Index(i)], false, isValidUrl)
    ensures x in DocumentIssues(value, isValidUrl)
  {
    assert [] + [Index(0 + i)] == [Index(i)];
    SeqIssuesHas(value.items, [], 0, false, isValidUrl, i, x);
  }

  /** `p` leads from `value` to an unsafe link that the validator reaches inside some `children`, with `href` `h`. */
  predicate UnsafeLinkAt(value: Value, p: Path, h: string, isValidUrl: string -> bool)
  {
    ReachedChild(value, p) && UnsafeLink(At(value, p), h, isValidUrl)
  }

  /** The validator's issues name every unsafe link it reaches inside `children`. */
  lemma ReachedLinksIssued(value: Value, isValidUrl: string -> bool)
    ensures forall p, h :: UnsafeLinkAt(value, p, h, isValidUrl) ==>
                             Issue(p + [Key("href")], InvalidUrl(h)) in DocumentIssues(value, isValidUrl)
  {
    forall p, h | UnsafeLinkAt(value, p, h, isValidUrl)
      ensures Issue(p + [Key("href")], InvalidUrl(h)) in DocumentIssues(value, isValidUrl)
    {
      UnsafeLinkIssued(value, p, h, isValidUrl);
    }
  }

  /** A link at the top level is not dispatched at all: it raises an unknown-type issue and no URL issue. */
  lemma TopLevelLinkUnknown(v: Value, path: Path, isValidUrl: string -> bool)
    requires v.Obj? && Get(v, "type") == Str("link")
    ensures NodeIssues(v, path, false, isValidUrl) == [Issue(path, UnknownNodeType)]
  {
  }

  // ---------------------------------------------------------------------
  // Placement of inline nodes, and the documented rejections

  /** No value is both an inline node and a block node: their `type` values are disjoint. */
  lemma InlineIsNotBlock(v: Value, isValidUrl: string -> bool)
    requires IsInline(v, isValidUrl)
    ensures !IsBlock(v, isValidUrl)
  {
    if !v.Obj? {
      NotObjectNoNode(v, isValidUrl);
    }
    InlineDispatch(v, isValidUrl);
    BlockDispatch(v, isValidUrl);
  }

  lemma KeyIndexAt(ms: seq<Member>, key: string, j: nat)
    requires j < |ms| && ms[j].key == key
    requires forall i :: 0 <= i < j ==> ms[i].key != key
    ensures KeyIndex(ms, key) == j
  {
  }

  lemma KeyIndexAbsent(ms: seq<Member>, key: string)
    requires forall i :: 0 <= i < |ms| ==> ms[i].key != key
    ensures KeyIndex(ms, key) == |ms|
  {
  }

  lemma {:induction false} UnknownKeysAppend(a: seq<Member>, b: seq<Member>, allowed: seq<string>)
    ensures UnknownKeys(a + b, allowed) == UnknownKeys(a, allowed) + UnknownKeys(b, allowed)
  {
    if |a| > 0 {
      UnknownKeysAppend(a[1..], b, allowed);
      assert (a + b)[1..] == a[1..] + b;
    } else {
      assert a + b == b;
    }
  }

  /** A paragraph whose only key besides `type` is `children`. */
  function ParagraphOf(children: seq<Value>): Value
  {
    Obj([Member("type", Str("paragraph")), Member("children", Arr(children))])
  }

  /** Inline nodes are not accepted at the top level of a document. */
  lemma InlineRejectedAtTop(nodes: seq<Value>, i: nat, isValidUrl: string -> bool)
    requires i < |nodes| && IsInline(nodes[i], isValidUrl)
    ensures !IsDocument(Arr(nodes), isValidUrl)
  {
    InlineIsNotBlock(nodes[i], isValidUrl);
  }

  /** Inside `children`, block and inline nodes may be mixed freely. */
  lemma ParagraphChildren(children: seq<Value>, isValidUrl: string -> bool)
    ensures IsDocument(Arr([ParagraphOf(children)]), isValidUrl) <==>
              forall i :: 0 <= i < |children| ==> IsBlock(children[i], isValidUrl) || IsInline(children[i], isValidUrl)
  {
    var p := ParagraphOf(children);
    assert Arr([p]).items[0] == p;
    KeyIndexAt(p.members, "type", 0);
    KeyIndexAt(p.members, "children", 1);
    KeyIndexAbsent(p.members, "textAlign");
    assert IsParagraph(p, isValidUrl) <==> ChildrenOk(p, isValidUrl);
    assert IsBlock(p, isValidUrl) <==> IsParagraph(p, isValidUrl);
  }

  /** A heading with the given `textAlign` and `level` and no children. */
  function HeadingOf(textAlign: Value, level: Value): Value
  {
    Obj([Member("type", Str("heading")), Member("textAlign", textAlign), Member("level", level),
         Member("children", Arr([]))])
  }

  /** The heading built by `HeadingOf` has the heading shape exactly when its level and alignment are valid. */
  lemma HeadingShape(textAlign: Value, level: Value, isValidUrl: string -> bool)
    ensures IsHeading(HeadingOf(textAlign, level), isValidUrl) <==> IsHeadingLevel(level) && IsTextAlign(textAlign)
  {
    var h := HeadingOf(textAlign, level);
    KeyIndexAt(h.members, "type", 0);
    KeyIndexAt(h.members, "textAlign", 1);
    KeyIndexAt(h.members, "level", 2);
    KeyIndexAt(h.members, "children", 3);
    assert ChildrenOk(h, isValidUrl);
    assert OnlyKeys(h, AllowedKeys(Heading));
  }

  /** A heading is accepted exactly when its level is 1 to 6 and its alignment is absent, `center` or `end`. */
  lemma HeadingLevelAndAlign(textAlign: Value, level: Value, isValidUrl: string -> bool)
    ensures IsDocument(Arr([HeadingOf(textAlign, level)]), isValidUrl) <==>
              IsHeadingLevel(level) && IsTextAlign(textAlign)
  {
    var h := HeadingOf(textAlign, level);
    assert Arr([h]).items[0] == h;
    HeadingShape(textAlign, level, isValidUrl);
    KeyIndexAt(h.members, "type", 0);
    BlockDispatch(h, isValidUrl);
    HeadingKind();
  }

  /** A value that is not an array, such as `{}`, is rejected at the root. */
  lemma NonArrayRejected(value: Value, isValidUrl: string -> bool)
    requires !value.Arr?
    ensures DocumentIssues(value, isValidUrl) == [Issue([], ExpectedArray)]
    ensures ValidateDocumentStructure(value, isValidUrl) == Invalid(StructureErrorPrefix + "Expected array\n")
  {
    assert Render([Issue([], ExpectedArray)]) == "Expected array\n" by {
      assert [Issue([], ExpectedArray)][1..] == [];
      PlainPrefix("Expected array", "");
      assert "Expected array" + "" == "Expected array";
    }
  }

  /** A text leaf holding `text` and nothing else. */
  function LeafOf(text: string): Value
  {
    Obj([Member("text", Str(text))])
  }

  lemma LeafIsText(text: string)
    ensures IsText(LeafOf(text))
  {
    var leaf := LeafOf(text);
    KeyIndexAbsent(leaf.members, "type");
    forall m | m in MarkKeys
      ensures Get(leaf, m) == Undefined
    {
      KeyIndexAbsent(leaf.members, m);
    }
  }

  /** A link with `href`, the `extra` members, and one text leaf as children. */
  function LinkOf(href: string, extra: seq<Member>, text: string): Value
  {
    Obj([Member("type", Str("link"))] + extra
        + [Member("href", Str(href)), Member("children", Arr([LeafOf(text)]))])
  }

  lemma SingleSeqIssues(v: Value, base: Path, offset: nat, inChildren: bool, isValidUrl: string -> bool)
    ensures SeqIssues([v], base, offset, inChildren, isValidUrl) == NodeIssues(v, base + [Index(offset)], inChildren, isValidUrl)
  {
    assert [v][1..] == [];
  }

  /** An element whose `children` holds the single node `c`. */
  lemma SingleChildIssues(v: Value, c: Value, path: Path, isValidUrl: string -> bool)
    requires v.Obj?
    requires Get(v, "children") == Arr([c])
    ensures ChildIssues(v, path, isValidUrl) == NodeIssues(c, path + [Key("children"), Index(0)], true, isValidUrl)
  {
    SingleSeqIssues(c, path + [Key("children")], 0, true, isValidUrl);
    assert path + [Key("children")] + [Index(0)] == path + [Key("children"), Index(0)];
  }

  lemma ParagraphNodeIssues(link: Value, isValidUrl: string -> bool)
    ensures NodeIssues(ParagraphOf([link]), [Index(0)], false, isValidUrl)
            == ChildIssues(ParagraphOf([link]), [Index(0)], isValidUrl)
  {
    var para := ParagraphOf([link]);
    KeyIndexAt(para.members, "type", 0);
    KeyIndexAbsent(para.members, "textAlign");
    UnknownKeysEmpty(para.members, AllowedKeys(Paragraph));
    assert BlockKind(Str("paragraph")) == Some(Paragraph);
  }

  /** The issues of a paragraph holding `link` at the top of a document are those of the link. */
  lemma ParagraphIssues(link: Value, isValidUrl: string -> bool)
    ensures DocumentIssues(Arr([ParagraphOf([link])]), isValidUrl)
            == NodeIssues(link, [Index(0), Key("children"), Index(0)], true, isValidUrl)
  {
    var para := ParagraphOf([link]);
    SingleSeqIssues(para, [], 0, false, isValidUrl);
    assert [] + [Index(0)] == [Index(0)];
    ParagraphNodeIssues(link, isValidUrl);
    KeyIndexAt(para.members, "children", 1);
    SingleChildIssues(para, link, [Index(0)], isValidUrl);
    assert [Index(0)] + [Key("children"), Index(0)] == [Index(0), Key("children"), Index(0)];
  }

  /** The children of a `LinkOf` link raise no issue. */
  lemma LinkChildrenClean(link: Value, text: string, path: Path, isValidUrl: string -> bool)
    requires link.Obj? && |link.members| >= 1
    requires link.members[|link.members| - 1] == Member("children", Arr([LeafOf(text)]))
    requires forall i :: 0 <= i < |link.members| - 1 ==> link.members[i].key != "children"
    ensures ChildIssues(link, path, isValidUrl) == []
  {
    KeyIndexAt(link.members, "children", |link.members| - 1);
    var leaf := LeafOf(text);
    var base := path + [Key("children")];
    LeafIsText(text);
    NodeIssuesEmpty(leaf, base + [Index(0)], true, isValidUrl);
    assert [leaf][1..] == [];
    assert SeqIssues([leaf], base, 0, true, isValidUrl) == NodeIssues(leaf, base + [Index(0)], true, isValidUrl) + [];
  }

  /** A `LinkOf` link raises its `href` issues and its strictness issue, in that order. */
  lemma LinkNodeIssues(href: string, extra: seq<Member>, text: string, path: Path, isValidUrl: string -> bool)
    requires forall i :: 0 <= i < |extra| ==> extra[i].key !in ["type", "href", "children"]
    ensures NodeIssues(LinkOf(href, extra, text), path, true, isValidUrl)
            == HrefIssues(Str(href), path, isValidUrl) + StrictIssues(LinkOf(href, extra, text), AllowedKeys(Link), path)
  {
    var link := LinkOf(href, extra, text);
    var ms := link.members;
    assert forall i :: 1 <= i < 1 + |extra| ==> ms[i] == extra[i - 1];
    KeyIndexAt(ms, "type", 0);
    KeyIndexAt(ms, "href", 1 + |extra|);
    assert ChildKind(Str("link")) == Some(Link);
    LinkChildrenClean(link, text, path, isValidUrl);
  }

  /** An unsafe `href` on a `LinkOf` link with no extra key is its one issue. */
  lemma UnsafeLinkIssues(href: string, text: string, path: Path, isValidUrl: string -> bool)
    requires !isValidUrl(href)
    ensures NodeIssues(LinkOf(href, [], text), path, true, isValidUrl) == [Issue(path + [Key("href")], InvalidUrl(href))]
  {
    var link := LinkOf(href, [], text);
    LinkNodeIssues(href, [], text, path, isValidUrl);
    UnknownKeysEmpty(link.members, AllowedKeys(Link));
  }

  /** An unsafe `href` inside a paragraph is reported once, at `[0, children, 0, href]`. */
  lemma UnsafeLinkReported(href: string, text: string, isValidUrl: string -> bool)
    requires !isValidUrl(href)
    ensures DocumentIssues(Arr([ParagraphOf([LinkOf(href, [], text)])]), isValidUrl)
            == [Issue([Index(0), Key("children"), Index(0), Key("href")], InvalidUrl(href))]
  {
    var path := [Index(0), Key("children"), Index(0)];
    ParagraphIssues(LinkOf(href, [], text), isValidUrl);
    UnsafeLinkIssues(href, text, path, isValidUrl);
    assert path + [Key("href")] == [Index(0), Key("children"), Index(0), Key("href")];
  }

  lemma ExtraKeyUnknown()
    ensures UnknownKeys([Member("somethingElse", Bool(true))], AllowedKeys(Link)) == ["somethingElse"]
  {
    assert [Member("somethingElse", Bool(true))][1..] == [];
  }

  /** The only key of a `LinkOf` link with one extra member that a link does not declare is that member's. */
  lemma ExcessLinkKeys(href: string, text: string)
    ensures UnknownKeys(LinkOf(href, [Member("somethingElse", Bool(true))], text).members, AllowedKeys(Link))
            == ["somethingElse"]
  {
    var ms := LinkOf(href, [Member("somethingElse", Bool(true))], text).members;
    var allowed := AllowedKeys(Link);
    assert ms == [ms[0]] + ([ms[1]] + [ms[2], ms[3]]);
    UnknownKeysAppend([ms[0]], [ms[1]] + [ms[2], ms[3]], allowed);
    UnknownKeysAppend([ms[1]], [ms[2], ms[3]], allowed);
    UnknownKeysEmpty([ms[0]], allowed);
    UnknownKeysEmpty([ms[2], ms[3]], allowed);
    ExtraKeyUnknown();
  }

  /** The unknown keys of a safe `LinkOf` link with one extra member are that member's key. */
  lemma ExcessKeyIssues(href: string, text: string, path: Path, isValidUrl: string -> bool)
    requires isValidUrl(href)
    ensures NodeIssues(LinkOf(href, [Member("somethingElse", Bool(true))], text), path, true, isValidUrl)
            == [Issue(path, UnrecognizedKeys(["somethingElse"]))]
  {
    LinkNodeIssues(href, [Member("somethingElse", Bool(true))], text, path, isValidUrl);
    ExcessLinkKeys(href, text);
    assert HrefIssues(Str(href), path, isValidUrl) == [];
  }

  /** An unknown key on a link is reported once, at the link, naming the key. */
  lemma ExcessKeyReported(href: string, text: string, isValidUrl: string -> bool)
    requires isValidUrl(href)
    ensures DocumentIssues(Arr([ParagraphOf([LinkOf(href, [Member("somethingElse", Bool(true))], text)])]), isValidUrl)
            == [Issue([Index(0), Key("children"), Index(0)], UnrecognizedKeys(["somethingElse"]))]
  {
    ParagraphIssues(LinkOf(href, [Member("somethingElse", Bool(true))], text), isValidUrl);
    ExcessKeyIssues(href, text, [Index(0), Key("children"), Index(0)], isValidUrl);
  }
}
