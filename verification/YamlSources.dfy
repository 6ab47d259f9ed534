/** The token streams that a printer makes of documents, in block and flow style, and what the parser makes of them:
    exactly the events of the documents. */
module YamlSources {
  import opened Options
  import opened YamlEvents
  import opened YamlSteps

  // ---- Documents as they are written ----

  datatype Property = Anchored(name: string) | Tagged(handle: string, suffix: string)

  /** A flow collection can have a comma behind its last entry. */
  datatype Form = Block | Flow(comma: bool) | Indentless

  /** A node: an alias, a scalar, nothing but properties (or nothing at all), a sequence, a mapping, or the single pair
      that can be an entry of a flow sequence. */
  datatype Source =
    | Ref(name: string)
    | Text(props: seq<Property>, text: string, style: nat)
    | Bare(props: seq<Property>)
    | List(props: seq<Property>, form: Form, items: Items)
    | Table(props: seq<Property>, form: Form, fields: Fields)
    | Single(key: Source, valued: bool, value: Source)

  datatype Items = NoItems | Item(head: Source, tail: Items)

  /** A pair has a key indicator or not, and a value indicator or not. */
  datatype Fields = NoFields | Field(marked: bool, key: Source, valued: bool, value: Source, tail: Fields)

  /** The tag handles of a document and their prefixes. */
  type Handles = map<string, string>

  // ---- The tokens ----

  /** The tokens of properties, followed by others. */
  function PrintProps(props: seq<Property>, after: seq<Token>): seq<Token> {
    if props == [] then after else [PropertyToken(props[0])] + PrintProps(props[1..], after)
  }

  function PropertyToken(p: Property): Token {
    match p
    case Anchored(name) => AnchorToken(name)
    case Tagged(handle, suffix) => TagToken(handle, suffix)
  }

  /** The tokens of a node, followed by others. */
  function Print(src: Source, after: seq<Token>): seq<Token>
    decreases src, 0
  {
    match src
    case Ref(name) => [AliasToken(name)] + after
    case Text(props, text, style) => PrintProps(props, [ScalarToken(text, style)] + after)
    case Bare(props) => PrintProps(props, after)
    case List(props, form, items) => PrintProps(props, PrintList(form, items, after))
    case Table(props, form, fields) => PrintProps(props, PrintTable(form, fields, after))
    case Single(key, valued, value) => [KeyToken] + Print(key, PrintValue(valued, value, after))
  }

  function PrintValue(valued: bool, value: Source, after: seq<Token>): seq<Token>
    decreases value, 1
  {
    if valued then [ValueToken] + Print(value, after) else after
  }

  function PrintComma(comma: bool, end: seq<Token>): seq<Token> {
    if comma then [FlowEntryToken] + end else end
  }

  function PrintList(form: Form, items: Items, after: seq<Token>): seq<Token>
    decreases items, 2
  {
    match form
    case Block => [BlockSequenceStartToken] + PrintBlockItems(items, [BlockEndToken] + after)
    case Indentless => PrintBlockItems(items, after)
    case Flow(comma) =>
      [FlowSequenceStartToken] + PrintFlowItems(items, true, PrintComma(comma, [FlowSequenceEndToken] + after))
  }

  function PrintBlockItems(items: Items, after: seq<Token>): seq<Token>
    decreases items, 1
  {
    match items
    case NoItems => after
    case Item(head, tail) => [BlockEntryToken] + Print(head, PrintBlockItems(tail, after))
  }

  function PrintFlowItems(items: Items, first: bool, after: seq<Token>): seq<Token>
    decreases items, 1
  {
    match items
    case NoItems => after
    case Item(head, tail) =>
      var entry := Print(head, PrintFlowItems(tail, false, after));
      if first then entry else [FlowEntryToken] + entry
  }

  function PrintTable(form: Form, fields: Fields, after: seq<Token>): seq<Token>
    decreases fields, 2
  {
    if form.Flow? then
      [FlowMappingStartToken] + PrintFlowFields(fields, true, PrintComma(form.comma, [FlowMappingEndToken] + after))
    else [BlockMappingStartToken] + PrintBlockFields(fields, [BlockEndToken] + after)
  }

  function PrintBlockFields(fields: Fields, after: seq<Token>): seq<Token>
    decreases fields, 1
  {
    match fields
    case NoFields => after
    case Field(_, key, valued, value, tail) =>
      [KeyToken] + Print(key, PrintValue(valued, value, PrintBlockFields(tail, after)))
  }

  function PrintFlowFields(fields: Fields, first: bool, after: seq<Token>): seq<Token>
    decreases fields, 1
  {
    match fields
    case NoFields => after
    case Field(marked, key, valued, value, tail) =>
      var entry := Print(key, PrintValue(valued, value, PrintFlowFields(tail, false, after)));
      var entry' := if marked then [KeyToken] + entry else entry;
      if first then entry' else [FlowEntryToken] + entry'
  }

  // ---- The events ----

  function AnchorIn(props: seq<Property>): Option<string> {
    if props == [] then None
    else if props[0].Anchored? then Some(props[0].name)
    else AnchorIn(props[1..])
  }

  /** The tag with the prefix of its handle, if it has one. */
  function TagIn(props: seq<Property>, handles: Handles): Option<string> {
    if props == [] then None
    else if props[0].Tagged? then
      var handle, suffix := props[0].handle, props[0].suffix;
      Some(if handle == "" || handle !in handles then suffix else handles[handle] + suffix)
    else TagIn(props[1..], handles)
  }

  function TextEvent(props: seq<Property>, handles: Handles, text: string, style: nat): Event {
    var tag := TagIn(props, handles);
    Scalar(AnchorIn(props), tag, text, tag == Some("!") || (tag.None? && style == 1), tag.None? && style != 1, style)
  }

  predicate Implicit(tag: Option<string>) {
    tag == None || tag == Some("")
  }

  /** Nothing but properties is an empty plain scalar. */
  function BareEvent(props: seq<Property>, handles: Handles): Event {
    Scalar(AnchorIn(props), TagIn(props, handles), "", Implicit(TagIn(props, handles)), false, 1)
  }

  /** The events of a node, followed by others. */
  function Events(src: Source, handles: Handles, more: seq<Event>): seq<Event>
    decreases src
  {
    match src
    case Ref(name) => [Alias(name)] + more
    case Text(props, text, style) => [TextEvent(props, handles, text, style)] + more
    case Bare(props) => [BareEvent(props, handles)] + more
    case List(props, form, items) =>
      var tag := TagIn(props, handles);
      [SequenceStart(AnchorIn(props), tag, Implicit(tag), if form.Flow? then 2 else 1)] +
      ItemEvents(items, handles, [SequenceEnd] + more)
    case Table(props, form, fields) =>
      var tag := TagIn(props, handles);
      [MappingStart(AnchorIn(props), tag, Implicit(tag), if form.Flow? then 2 else 1)] +
      FieldEvents(fields, handles, [MappingEnd] + more)
    case Single(key, _, value) =>
      [MappingStart(None, None, true, 2)] + Events(key, handles, Events(value, handles, [MappingEnd] + more))
  }

  function ItemEvents(items: Items, handles: Handles, more: seq<Event>): seq<Event>
    decreases items
  {
    match items
    case NoItems => more
    case Item(head, tail) => Events(head, handles, ItemEvents(tail, handles, more))
  }

  function FieldEvents(fields: Fields, handles: Handles, more: seq<Event>): seq<Event>
    decreases fields
  {
    match fields
    case NoFields => more
    case Field(_, key, _, value, tail) =>
      Events(key, handles, Events(value, handles, FieldEvents(tail, handles, more)))
  }

  // ---- What can stand where ----

  /** In a document or a block sequence, in a block mapping, in a flow collection. */
  datatype Where = InBlock | InTable | InFlow

  predicate Missing(src: Source) {
    src.Bare? && src.props == []
  }

  /** At most one anchor and one tag, whose handle is known. */
  predicate FitProps(props: seq<Property>, handles: Handles) {
    && |props| <= 2 && (|props| == 2 ==> props[0].Anchored? != props[1].Anchored?)
    && forall p | p in props && p.Tagged? :: p.handle in handles || p.handle == ""
  }

  predicate Fits(src: Source, w: Where, handles: Handles)
    decreases src, 0
  {
    match src
    case Ref(_) => true
    case Text(props, _, _) => FitProps(props, handles)
    case Bare(props) => FitProps(props, handles)
    case List(props, form, items) =>
      && FitProps(props, handles) && (form.Block? ==> !w.InFlow?) && (form.Indentless? ==> w.InTable? && items.Item?)
      && (form.Flow? && form.comma ==> items.Item?)
      && FitItems(items, if form.Flow? then InFlow else InBlock, handles)
    case Table(props, form, fields) =>
      && FitProps(props, handles) && !form.Indentless? && (form.Block? ==> !w.InFlow?)
      && (form.Flow? && form.comma ==> fields.Field?)
      && FitFields(fields, form.Flow?, handles)
    case Single(_, _, _) => false
  }

  /** Flow sequences can have single pairs, but no entry can be left out. */
  predicate FitItems(items: Items, w: Where, handles: Handles)
    decreases items, 1
  {
    match items
    case NoItems => true
    case Item(head, tail) =>
      && (if head.Single? then w.InFlow? && FitSingle(head, handles)
          else Fits(head, w, handles) && (w.InFlow? ==> !Missing(head)))
      && FitItems(tail, w, handles)
  }

  predicate FitSingle(src: Source, handles: Handles)
    requires src.Single?
    decreases src, 1
  {
    && Fits(src.key, InFlow, handles) && !Missing(src.key)
    && Fits(src.value, InFlow, handles) && (!src.valued ==> Missing(src.value))
  }

  /** A key without an indicator cannot be left out and has no value. */
  predicate FitFields(fields: Fields, flow: bool, handles: Handles)
    decreases fields, 1
  {
    match fields
    case NoFields => true
    case Field(marked, key, valued, value, tail) =>
      var w := if flow then InFlow else InTable;
      && Fits(key, w, handles) && Fits(value, w, handles) && (!valued ==> Missing(value))
      && (!flow ==> marked) && (!marked ==> !Missing(key) && !valued)
      && FitFields(tail, flow, handles)
  }

  // ---- Documents ----

  datatype Directive = Version(minor: int) | Tag(handle: string, prefix: string)

  /** A document: its directives, whether it begins and ends with an indicator, and its root. */
  datatype Written = Written(directives: seq<Directive>, explicit: bool, root: Source, ended: bool)

  function DirectiveToken(d: Directive): Token {
    match d
    case Version(minor) => VersionDirectiveToken(1, minor)
    case Tag(handle, prefix) => TagDirectiveToken(handle, prefix)
  }

  function PrintDirectives(ds: seq<Directive>, after: seq<Token>): seq<Token> {
    if ds == [] then after else [DirectiveToken(ds[0])] + PrintDirectives(ds[1..], after)
  }

  function PrintEnd(ended: bool, after: seq<Token>): seq<Token> {
    if ended then [DocumentEndToken] + after else after
  }

  function PrintDocument(d: Written, after: seq<Token>): seq<Token> {
    var root := Print(d.root, PrintEnd(d.ended, after));
    if d.explicit then PrintDirectives(d.directives, [DocumentStartToken] + root) else root
  }

  function PrintDocuments(docs: seq<Written>, after: seq<Token>): seq<Token> {
    if docs == [] then after else PrintDocument(docs[0], PrintDocuments(docs[1..], after))
  }

  function PrintStream(docs: seq<Written>): seq<Token> {
    [StreamStartToken] + PrintDocuments(docs, [StreamEndToken])
  }

  function TagsOf(ds: seq<Directive>): seq<TagDirective> {
    if ds == [] then []
    else (if ds[0].Tag? then [TagDirective(ds[0].handle, ds[0].prefix)] else []) + TagsOf(ds[1..])
  }

  function Defined(ds: seq<TagDirective>): Handles {
    if ds == [] then map[]
    else
      var n := |ds| - 1;
      Defined(ds[..n])[ds[n].handle := ds[n].prefix]
  }

  /** The directives of a document, and `!` and `!!` if they are not among them. */
  function HandlesOf(ds: seq<TagDirective>): Handles {
    map["!" := "!", "!!" := "tag:yaml.org,2002:"] + Defined(ds)
  }

  function DocumentEvents(d: Written, more: seq<Event>): seq<Event> {
    [DocumentStart(!d.explicit)] + Events(d.root, HandlesOf(TagsOf(d.directives)), [DocumentEnd(!d.ended)] + more)
  }

  function DocumentsEvents(docs: seq<Written>, more: seq<Event>): seq<Event> {
    if docs == [] then more else DocumentEvents(docs[0], DocumentsEvents(docs[1..], more))
  }

  function StreamEvents(docs: seq<Written>): seq<Event> {
    [StreamStart] + DocumentsEvents(docs, [StreamEnd])
  }

  predicate Distinct(ds: seq<TagDirective>) {
    forall i, j | 0 <= i < j < |ds| :: ds[i].handle != ds[j].handle
  }

  /** At most one version, 1.1 or 1.2. */
  predicate FitVersions(ds: seq<Directive>, said: bool) {
    ds == [] || if ds[0].Tag? then FitVersions(ds[1..], said)
                else !said && (ds[0].minor == 1 || ds[0].minor == 2) && FitVersions(ds[1..], true)
  }

  /** Only the first document can do without an indicator; then it has no directives and is not empty. */
  predicate FitDocument(d: Written, first: bool) {
    && Fits(d.root, InBlock, HandlesOf(TagsOf(d.directives)))
    && Distinct(TagsOf(d.directives)) && FitVersions(d.directives, false)
    && (!d.explicit ==> first && d.directives == [] && !Missing(d.root))
  }

  predicate FitDocuments(docs: seq<Written>) {
    forall k | 0 <= k < |docs| :: FitDocument(docs[k], k == 0)
  }
}
