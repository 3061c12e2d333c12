/** The event-to-tree builder of `parse_string_promise`, stated as pure
    functions over the builder's state. This is the specification the class
    `Builder.TreeBuilder` is proved against, and the lemmas in `Properties`
    are about it.

    JavaScript objects are shared handles: the stack holds clones of the same
    handles the tree holds, so a property set through a stack entry is seen in
    the tree. Here every object is a node of an arena and a handle is its index.
    Node 0 is the detached object the builder starts with. */
module Semantics {
  import opened Xml
  import opened Whitespace

  /** `arena`: every object created so far; `stack`: handles on the ancestors of
      the open element; `current`: the open element (or node 0); `root`: the
      handle on the one-key root wrapper, once the first start tag is seen. */
  datatype State = State(arena: seq<Node>, stack: seq<nat>, current: nat, root: Option<nat>)

  /** Every handle points into the arena, and the root wrapper is neither open
      nor an ancestor, so no event can write into it. */
  predicate WellFormed(s: State) {
    && s.current < |s.arena|
    && (forall i :: 0 <= i < |s.stack| ==> s.stack[i] < |s.arena|)
    && (s.root.Some? ==> s.root.value < |s.arena| && s.root.value != s.current && s.root.value !in s.stack)
  }

  /** The state before the first event: one detached empty object, no stack, no root. */
  function Init(): (s: State)
    ensures WellFormed(s) && s.root.None? && |s.arena| == 1 && s.arena[0] == map[]
  {
    State([map[]], [], 0, None)
  }

  /** `handle_attributes`: sets each attribute on `node` in order, a string
      value under its key; stops at the first key that is not UTF-8 or value
      that cannot be unescaped. */
  function SetAttributes(node: Node, attrs: seq<Attribute>): Result<Node>
    decreases |attrs|
  {
    if attrs == [] then Ok(node)
    else if attrs[0].key.Undecodable? then Err(BadAttributeKey)
    else if attrs[0].value.Undecodable? then Err(BadAttributeValue)
    else SetAttributes(node[attrs[0].key.text := Str(attrs[0].value.text)], attrs[1..])
  }

  /** Attaches the new element `child` under `name` in its parent object. An
      absent key is set to the child; a key holding a non-array value becomes
      the array [old value, child]. A key already holding an array keeps it
      as it is: the push lands on the copy `Array.from` makes. */
  function Link(parent: Node, name: string, child: nat): Node {
    if name !in parent then parent[name := Ref(child)]
    else if parent[name].Arr? then parent
    else parent[name := Arr([parent[name], Ref(child)])]
  }

  /** `process_start_event`: push the open element, create a fresh object
      holding the attributes, then either create the root wrapper (first start
      tag) or attach the new object to the parent, the handle on top of the stack. */
  function StartStep(s: State, name: Payload, attrs: seq<Attribute>): (r: Result<State>)
    requires WellFormed(s)
    ensures r.Ok? ==> WellFormed(r.value)
  {
    if name.Undecodable? then Err(BadTagName)
    else match SetAttributes(map[], attrs)
      case Err(f) => Err(f)
      case Ok(node) =>
        var stack := s.stack + [s.current];
        var child := |s.arena|;
        var arena := s.arena + [node];
        if s.root.None? then
          Ok(State(arena + [map[name.text := Ref(child)]], stack, child, Some(child + 1)))
        else
          var parent := stack[|stack| - 1];
          Ok(State(arena[parent := Link(arena[parent], name.text, child)], stack, child, s.root))
  }

  /** An end tag pops the parent into `current`; with an empty stack nothing changes. */
  function EndStep(s: State): (r: State)
    requires WellFormed(s)
    ensures WellFormed(r)
  {
    if s.stack == [] then s
    else State(s.arena, s.stack[..|s.stack| - 1], s.stack[|s.stack| - 1], s.root)
  }

  /** `process_text_event`: the unescaped text, untrimmed, becomes the open
      object's `#text` unless trimming leaves nothing. */
  function TextStep(s: State, content: Payload): (r: Result<State>)
    requires WellFormed(s)
    ensures r.Ok? ==> WellFormed(r.value)
  {
    if content.Undecodable? then Err(BadText)
    else if Trim(content.text) == [] then Ok(s)
    else Ok(s.(arena := s.arena[s.current := s.arena[s.current][TEXT_KEY := Str(content.text)]]))
  }

  datatype Outcome = Next(state: State) | Finished | Aborted(failure: Failure)

  /** One turn of the pull loop. */
  function Step(s: State, e: Event): (o: Outcome)
    requires WellFormed(s)
    ensures o.Next? ==> WellFormed(o.state)
  {
    match e
    case Start(name, attrs) =>
      (match StartStep(s, name, attrs) case Ok(t) => Next(t) case Err(f) => Aborted(f))
    case End => Next(EndStep(s))
    case Text(content) =>
      (match TextStep(s, content) case Ok(t) => Next(t) case Err(f) => Aborted(f))
    case Eof => Finished
    case Fail => Aborted(ReaderError)
    case Other => Next(s)
  }

  /** The pull loop over a finite event sequence; running out of events is
      end of input, as the reader yields `Eof` for ever once the input ends. */
  function Run(s: State, events: seq<Event>): (r: Result<State>)
    requires WellFormed(s)
    ensures r.Ok? ==> WellFormed(r.value)
    decreases |events|
  {
    if events == [] then Ok(s)
    else match Step(s, events[0])
      case Next(t) => Run(t, events[1..])
      case Finished => Ok(s)
      case Aborted(f) => Err(f)
  }

  /** The returned object: a handle `top` into the final arena. */
  datatype Document = Document(arena: seq<Node>, top: nat)

  /** `root_object.unwrap_or_else(Object::new)`: the root wrapper, or a fresh empty object. */
  function Output(s: State): (d: Document)
    requires WellFormed(s)
    ensures d.top < |d.arena| && |s.arena| <= |d.arena| && d.arena[..|s.arena|] == s.arena
    ensures s.root.None? ==> d.arena[d.top] == map[]
  {
    if s.root.Some? then Document(s.arena, s.root.value)
    else Document(s.arena + [map[]], |s.arena|)
  }

  /** `parse_string_promise` over the events the reader yields. */
  function Convert(events: seq<Event>): Result<Document> {
    match Run(Init(), events)
    case Ok(s) => Ok(Output(s))
    case Err(f) => Err(f)
  }

  /** The failure an attribute list causes, independent of the state: the first
      undecodable key, or value, in order. */
  function AttributesFailure(attrs: seq<Attribute>): Option<Failure>
    decreases |attrs|
  {
    if attrs == [] then None
    else if attrs[0].key.Undecodable? then Some(BadAttributeKey)
    else if attrs[0].value.Undecodable? then Some(BadAttributeValue)
    else AttributesFailure(attrs[1..])
  }

  /** The failure an event causes, whatever the state. */
  function EventFailure(e: Event): Option<Failure> {
    match e
    case Fail => Some(ReaderError)
    case Start(name, attrs) => if name.Undecodable? then Some(BadTagName) else AttributesFailure(attrs)
    case Text(content) => if content.Undecodable? then Some(BadText) else None
    case _ => None
  }

  /** Event `i` fails and no end of input comes before it. */
  predicate FailsAt(events: seq<Event>, i: int) {
    && 0 <= i < |events|
    && EventFailure(events[i]).Some?
    && forall j :: 0 <= j < i ==> !events[j].Eof?
  }

  /** Event `i` is the first one that fails before end of input. */
  predicate FirstFailureAt(events: seq<Event>, i: int) {
    && FailsAt(events, i)
    && forall j :: 0 <= j < i ==> EventFailure(events[j]).None?
  }

  /** The name of the first start tag before end of input, if any. */
  function FirstStart(events: seq<Event>): Option<Payload>
    decreases |events|
  {
    if events == [] || events[0].Eof? then None
    else if events[0].Start? then Some(events[0].name)
    else FirstStart(events[1..])
  }
}
