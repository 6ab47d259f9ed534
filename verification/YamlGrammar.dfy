/** The event grammar: STREAM-START (DOCUMENT-START node DOCUMENT-END)* STREAM-END, where a node is an alias,
    a scalar, a sequence of nodes or a mapping of pairs of nodes between their start and end events. */
module YamlGrammar {
  import opened Options
  import opened YamlEvents

  /** What an open collection waits for: any number of items, a key or the end, or a value. */
  datatype Frame = ItemFrame | KeyFrame | ValueFrame

  datatype Place =
    | Before               // nothing yet
    | Between              // between documents
    | Root                 // the root node comes next
    | Inside(stack: seq<Frame>)
    | Done                 // the root node is complete
    | After                // the stream has ended

  /** One more node in a collection. */
  function Advance(stack: seq<Frame>): seq<Frame> {
    if stack == [] then []
    else
      var top := |stack| - 1;
      match stack[top]
      case ItemFrame => stack
      case KeyFrame => stack[..top] + [ValueFrame]
      case ValueFrame => stack[..top] + [KeyFrame]
  }

  /** The open collections once one more node has been read. */
  function Beyond(p: Place): seq<Frame> {
    if p.Inside? then Advance(p.stack) else []
  }

  function Open(stack: seq<Frame>): Place {
    if stack == [] then Done else Inside(stack)
  }

  predicate WantsNode(p: Place) {
    p.Root? || (p.Inside? && p.stack != [])
  }

  predicate Tops(p: Place, f: Frame) {
    p.Inside? && p.stack != [] && p.stack[|p.stack| - 1] == f
  }

  function Next(p: Place, e: Event): Option<Place> {
    match e
    case StreamStart => if p.Before? then Some(Between) else None
    case StreamEnd => if p.Between? then Some(After) else None
    case DocumentStart(_) => if p.Between? then Some(Root) else None
    case DocumentEnd(_) => if p.Done? then Some(Between) else None
    case Alias(_) => if WantsNode(p) then Some(Open(Beyond(p))) else None
    case Scalar(_, _, _, _, _, _) => if WantsNode(p) then Some(Open(Beyond(p))) else None
    case SequenceStart(_, _, _, _) => if WantsNode(p) then Some(Inside(Beyond(p) + [ItemFrame])) else None
    case MappingStart(_, _, _, _) => if WantsNode(p) then Some(Inside(Beyond(p) + [KeyFrame])) else None
    case SequenceEnd => if Tops(p, ItemFrame) then Some(Open(p.stack[..|p.stack| - 1])) else None
    case MappingEnd => if Tops(p, KeyFrame) then Some(Open(p.stack[..|p.stack| - 1])) else None
  }

  /** Where a stream of events leads, if the grammar allows it. */
  function Follow(p: Place, events: seq<Event>): Option<Place> {
    if events == [] then Some(p)
    else
      var r := Follow(p, events[..|events| - 1]);
      if r.None? then None else Next(r.value, events[|events| - 1])
  }
}
