/** The builder as the source runs it: a pull loop that updates a stack of
    handles, the open object and the optional root wrapper step by step, and
    mutates objects in place through the handles. Each method is proved to
    perform exactly the corresponding step of `Semantics`. */
module Builder {
  import opened Xml
  import opened Whitespace
  import opened Semantics

  class TreeBuilder {
    /** Every object created so far; a handle is an index into it. */
    var arena: seq<Node>
    /** Clones of the handles on the ancestors of the open element. */
    var stack: seq<nat>
    /** The open element; node 0, the detached initial object, before the first start tag. */
    var current: nat
    /** The one-key root wrapper, once the first start tag is seen. */
    var root: Option<nat>

    function Snapshot(): State
      reads this
    {
      State(arena, stack, current, root)
    }

    predicate Valid()
      reads this
    {
      WellFormed(Snapshot())
    }

    constructor ()
      ensures Valid() && Snapshot() == Init()
    {
      arena := [map[]];
      stack := [];
      current := 0;
      root := None;
    }

    /** Sets the attributes, in order, on the open object; stops at the first
        key or value that cannot be decoded. */
    method HandleAttributes(attrs: seq<Attribute>) returns (err: Option<Failure>)
      requires Valid()
      modifies this
      ensures Valid()
      ensures stack == old(stack) && current == old(current) && root == old(root)
      ensures |arena| == old(|arena|)
      ensures forall j :: 0 <= j < |arena| && j != current ==> arena[j] == old(arena[j])
      ensures match SetAttributes(old(arena[current]), attrs)
                case Ok(node) => err == None && arena[current] == node
                case Err(f) => err == Some(f)
    {
      var i := 0;
      while i < |attrs|
        invariant 0 <= i <= |attrs|
        invariant Valid()
        invariant stack == old(stack) && current == old(current) && root == old(root)
        invariant |arena| == old(|arena|)
        invariant forall j :: 0 <= j < |arena| && j != current ==> arena[j] == old(arena[j])
        invariant SetAttributes(old(arena[current]), attrs) == SetAttributes(arena[current], attrs[i..])
      {
        var attr := attrs[i];
        assert attrs[i..][0] == attr && attrs[i..][1..] == attrs[i + 1..];
        if attr.key.Undecodable? {
          return Some(BadAttributeKey);
        }
        if attr.value.Undecodable? {
          return Some(BadAttributeValue);
        }
        arena := arena[current := arena[current][attr.key.text := Str(attr.value.text)]];
        i := i + 1;
      }
      return None;
    }

    /** Decodes the tag name, pushes the open object, opens a fresh object
        with the attributes, and either creates the root wrapper or attaches
        the new object to the parent on top of the stack. */
    method ProcessStartEvent(name: Payload, attrs: seq<Attribute>) returns (err: Option<Failure>)
      requires Valid()
      modifies this
      ensures Valid()
      ensures match StartStep(old(Snapshot()), name, attrs)
                case Ok(t) => err == None && Snapshot() == t
                case Err(f) => err == Some(f)
    {
      if name.Undecodable? {
        return Some(BadTagName);
      }
      ghost var s0 := Snapshot();
      var tag := name.text;
      stack := stack + [current];
      arena := arena + [map[]];
      current := |arena| - 1;
      err := HandleAttributes(attrs);
      if err.Some? {
        return;
      }
      assert SetAttributes(map[], attrs) == Ok(arena[current]);
      assert arena == s0.arena + [arena[current]];
      if root.None? {
        arena := arena + [map[tag := Ref(current)]];
        root := Some(|arena| - 1);
      } else {
        var parent := stack[|stack| - 1];
        if tag !in arena[parent] {
          arena := arena[parent := arena[parent][tag := Ref(current)]];
        } else if arena[parent][tag].Arr? {
          // Array.from returns a shallow copy: the push lands on it and the copy is dropped
          var copy := arena[parent][tag].items + [Ref(current)];
        } else {
          var existing := arena[parent][tag];
          arena := arena[parent := arena[parent][tag := Arr([existing, Ref(current)])]];
        }
      }
    }

    /** An end tag: the parent, if any, becomes the open object again. */
    method PopParent()
      requires Valid()
      modifies this
      ensures Valid()
      ensures Snapshot() == EndStep(old(Snapshot()))
    {
      if |stack| > 0 {
        current := stack[|stack| - 1];
        stack := stack[..|stack| - 1];
      }
    }

    /** Unescapes the text and stores it, untrimmed, as `#text` of the open
        object unless it is blank. */
    method ProcessTextEvent(content: Payload) returns (err: Option<Failure>)
      requires Valid()
      modifies this
      ensures Valid()
      ensures match TextStep(old(Snapshot()), content)
                case Ok(t) => err == None && Snapshot() == t
                case Err(f) => err == Some(f)
    {
      if content.Undecodable? {
        return Some(BadText);
      }
      var text := content.text;
      if Trim(text) != [] {
        arena := arena[current := arena[current][TEXT_KEY := Str(text)]];
      }
      return None;
    }

    /** The root wrapper, or a new empty object when no start tag was seen. */
    method Finish() returns (doc: Document)
      requires Valid()
      ensures doc == Output(Snapshot())
    {
      if root.Some? {
        doc := Document(arena, root.value);
      } else {
        doc := Document(arena + [map[]], |arena|);
      }
    }
  }

  /** `parse_string_promise`: pulls events until end of input, dispatching each
      to the builder; a reader error or a decoding failure aborts with no tree. */
  method ParseStringPromise(events: seq<Event>) returns (r: Result<Document>)
    ensures r == Convert(events)
  {
    var builder := new TreeBuilder();
    var i := 0;
    while i < |events|
      invariant 0 <= i <= |events|
      invariant fresh(builder) && builder.Valid()
      invariant Run(builder.Snapshot(), events[i..]) == Run(Init(), events)
    {
      var event := events[i];
      assert events[i..][0] == event && events[i..][1..] == events[i + 1..];
      match event {
        case Start(name, attrs) =>
          var err := builder.ProcessStartEvent(name, attrs);
          if err.Some? {
            return Err(err.value);
          }
        case End =>
          builder.PopParent();
        case Text(content) =>
          var err := builder.ProcessTextEvent(content);
          if err.Some? {
            return Err(err.value);
          }
        case Eof =>
          break;
        case Fail =>
          return Err(ReaderError);
        case Other =>
      }
      i := i + 1;
    }
    var doc := builder.Finish();
    return Ok(doc);
  }
}
