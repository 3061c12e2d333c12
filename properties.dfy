/** What the builder promises, proved about the step semantics. */
module Properties {
  import opened Xml
  import opened Whitespace
  import opened Semantics

  // ---------------------------------------------------------------------------
  // Attributes

  /** Setting the attributes succeeds exactly when every key and value decodes,
      and otherwise fails with the stage of the first one that does not. */
  lemma {:induction false} SetAttributesFailure(node: Node, attrs: seq<Attribute>)
    ensures SetAttributes(node, attrs).Ok?
            <==> forall i :: 0 <= i < |attrs| ==> attrs[i].key.Decoded? && attrs[i].value.Decoded?
    ensures SetAttributes(node, attrs).Ok? <==> AttributesFailure(attrs).None?
    ensures SetAttributes(node, attrs).Err? ==> SetAttributes(node, attrs).error == AttributesFailure(attrs).value
    decreases |attrs|
  {
    if attrs != [] && attrs[0].key.Decoded? && attrs[0].value.Decoded? {
      var rest := attrs[1..];
      SetAttributesFailure(node[attrs[0].key.text := Str(attrs[0].value.text)], rest);
      assert forall i :: 1 <= i < |attrs| ==> attrs[i] == rest[i - 1];
    }
  }

  /** The object holds exactly its earlier keys and the attribute keys. */
  lemma {:induction false} SetAttributesKeys(node: Node, attrs: seq<Attribute>)
    requires SetAttributes(node, attrs).Ok?
    ensures var r := SetAttributes(node, attrs).value;
            forall k :: k in r <==> k in node || exists i :: 0 <= i < |attrs| && attrs[i].key == Decoded(k)
    decreases |attrs|
  {
    if attrs != [] {
      var a, rest := attrs[0], attrs[1..];
      var next := node[a.key.text := Str(a.value.text)];
      SetAttributesKeys(next, rest);
      var r := SetAttributes(node, attrs).value;
      assert r == SetAttributes(next, rest).value;
      forall k
        ensures k in r <==> k in node || exists i :: 0 <= i < |attrs| && attrs[i].key == Decoded(k)
      {
        if exists i :: 0 <= i < |rest| && rest[i].key == Decoded(k) {
          var i :| 0 <= i < |rest| && rest[i].key == Decoded(k);
          assert attrs[i + 1].key == Decoded(k);
        }
        if exists i :: 0 <= i < |attrs| && attrs[i].key == Decoded(k) {
          var i :| 0 <= i < |attrs| && attrs[i].key == Decoded(k);
          if i > 0 { assert rest[i - 1].key == Decoded(k); }
        }
      }
    }
  }

  /** A key given by several attributes holds the value of the last of them. */
  lemma {:induction false} SetAttributesLastWins(node: Node, attrs: seq<Attribute>)
    requires SetAttributes(node, attrs).Ok?
    ensures forall i :: 0 <= i < |attrs| ==> attrs[i].key.Decoded? && attrs[i].value.Decoded?
    ensures var r := SetAttributes(node, attrs).value;
            forall i :: 0 <= i < |attrs| && (forall j :: i < j < |attrs| ==> attrs[j].key != attrs[i].key)
              ==> attrs[i].key.text in r && r[attrs[i].key.text] == Str(attrs[i].value.text)
    decreases |attrs|
  {
    SetAttributesFailure(node, attrs);
    if attrs != [] {
      var a, rest := attrs[0], attrs[1..];
      var next := node[a.key.text := Str(a.value.text)];
      SetAttributesLastWins(next, rest);
      SetAttributesUntouched(next, rest);
      var r := SetAttributes(node, attrs).value;
      assert r == SetAttributes(next, rest).value;
      if forall j :: 0 < j < |attrs| ==> attrs[j].key != a.key {
        forall j | 0 <= j < |rest| ensures rest[j].key != Decoded(a.key.text) {
          assert attrs[j + 1].key != a.key;
        }
        assert a.key.text in r && r[a.key.text] == next[a.key.text];
      }
      forall i | 1 <= i < |attrs| && (forall j :: i < j < |attrs| ==> attrs[j].key != attrs[i].key)
        ensures attrs[i].key.text in r && r[attrs[i].key.text] == Str(attrs[i].value.text)
      {
        assert rest[i - 1] == attrs[i];
        forall j | i - 1 < j < |rest| ensures rest[j].key != rest[i - 1].key {
          assert attrs[j + 1].key != attrs[i].key;
        }
      }
    }
  }

  /** A key no attribute names keeps its earlier value. */
  lemma {:induction false} SetAttributesUntouched(node: Node, attrs: seq<Attribute>)
    requires SetAttributes(node, attrs).Ok?
    ensures var r := SetAttributes(node, attrs).value;
            forall k :: k in node && (forall i :: 0 <= i < |attrs| ==> attrs[i].key != Decoded(k))
              ==> k in r && r[k] == node[k]
    decreases |attrs|
  {
    if attrs != [] {
      var a, rest := attrs[0], attrs[1..];
      var next := node[a.key.text := Str(a.value.text)];
      SetAttributesUntouched(next, rest);
      var r := SetAttributes(node, attrs).value;
      assert r == SetAttributes(next, rest).value;
      forall k | k in node && (forall i :: 0 <= i < |attrs| ==> attrs[i].key != Decoded(k))
        ensures k in r && r[k] == node[k]
      {
        assert attrs[0].key != Decoded(k);
        forall i | 0 <= i < |rest| ensures rest[i].key != Decoded(k) {
          assert attrs[i + 1].key != Decoded(k);
        }
      }
    }
  }

  /** Every value an attribute writes is a string. */
  lemma {:induction false} SetAttributesWritesStrings(node: Node, attrs: seq<Attribute>)
    requires SetAttributes(node, attrs).Ok?
    ensures var r := SetAttributes(node, attrs).value;
            forall k :: k in r ==> (k in node && r[k] == node[k]) || r[k].Str?
    decreases |attrs|
  {
    if attrs != [] {
      var a, rest := attrs[0], attrs[1..];
      SetAttributesWritesStrings(node[a.key.text := Str(a.value.text)], rest);
    }
  }

  /** What a successful start tag does to the state. */
  lemma StartShape(s: State, name: Payload, attrs: seq<Attribute>, t: State)
    requires WellFormed(s) && StartStep(s, name, attrs) == Ok(t)
    ensures name.Decoded? && SetAttributes(map[], attrs).Ok?
    ensures t.stack == s.stack + [s.current] && t.current == |s.arena|
    ensures |s.arena| < |t.arena| && t.arena[|s.arena|] == SetAttributes(map[], attrs).value
    ensures forall j :: 0 <= j < |s.arena| && j != s.current ==> t.arena[j] == s.arena[j]
    ensures s.root.None? ==>
              && |t.arena| == |s.arena| + 2 && t.root == Some(|s.arena| + 1)
              && t.arena[|s.arena| + 1] == map[name.text := Ref(|s.arena|)]
              && t.arena[s.current] == s.arena[s.current]
    ensures s.root.Some? ==>
              && |t.arena| == |s.arena| + 1 && t.root == s.root
              && t.arena[s.current] == Link(s.arena[s.current], name.text, |s.arena|)
  {
  }

  /** Linking keeps every other key, and every value either stays or becomes
      the array that starts with it. */
  lemma LinkGrows(parent: Node, name: string, child: nat)
    ensures forall k :: k in parent ==> k in Link(parent, name, child) && Grows(parent[k], Link(parent, name, child)[k])
    ensures forall k :: k != name ==> (k in Link(parent, name, child) <==> k in parent)
  {
  }

  /** Linking stores only an element handle or a two-element array. */
  lemma LinkKeepsArrays(parent: Node, name: string, child: nat)
    requires forall k :: k in parent ==> TwoElements(parent[k])
    ensures forall k :: k in Link(parent, name, child) ==> TwoElements(Link(parent, name, child)[k])
  {
  }

  /** What a successful text event does to the state. */
  lemma TextShape(s: State, content: Payload, t: State)
    requires WellFormed(s) && TextStep(s, content) == Ok(t)
    ensures t.stack == s.stack && t.current == s.current && t.root == s.root && |t.arena| == |s.arena|
    ensures forall j :: 0 <= j < |s.arena| && j != s.current ==> t.arena[j] == s.arena[j]
    ensures forall k :: k != TEXT_KEY ==> (k in t.arena[s.current] <==> k in s.arena[s.current])
    ensures forall k :: k != TEXT_KEY && k in s.arena[s.current] ==> t.arena[s.current][k] == s.arena[s.current][k]
    ensures TEXT_KEY in t.arena[s.current] ==>
              t.arena[s.current][TEXT_KEY].Str? || t.arena[s.current] == s.arena[s.current]
  {
    if Trim(content.text) == [] {
      assert t == s;
    } else {
      var node := s.arena[s.current][TEXT_KEY := Str(content.text)];
      assert t.arena == s.arena[s.current := node];
    }
  }

  /** An event other than a start tag neither creates objects nor touches the root. */
  lemma OtherStepShape(s: State, e: Event)
    requires WellFormed(s) && !e.Start? && Step(s, e).Next?
    ensures var t := Step(s, e).state;
            && t.root == s.root && |t.arena| == |s.arena|
            && (forall j :: 0 <= j < |s.arena| && j != s.current ==> t.arena[j] == s.arena[j])
  {
    if e.Text? {
      TextShape(s, e.content, Step(s, e).state);
    }
  }



  /** An event aborts the loop exactly when it is a reader error or carries
      something that does not decode, whatever the state; only end of input
      finishes it. */
  lemma StepAborts(s: State, e: Event)
    requires WellFormed(s)
    ensures Step(s, e).Aborted? <==> EventFailure(e).Some?
    ensures Step(s, e).Aborted? ==> Step(s, e).failure == EventFailure(e).value
    ensures Step(s, e).Finished? <==> e.Eof?
  {
    if e.Start? && e.name.Decoded? {
      SetAttributesFailure(map[], e.attrs);
    }
  }

  /** A start tag pushes the open element and makes a fresh object current,
      holding exactly the attribute keys, the last value of a repeated key. */
  lemma StartOpensNode(s: State, name: string, attrs: seq<Attribute>, t: State)
    requires WellFormed(s) && Step(s, Start(Decoded(name), attrs)) == Next(t)
    ensures forall i :: 0 <= i < |attrs| ==> attrs[i].key.Decoded? && attrs[i].value.Decoded?
    ensures t.stack == s.stack + [s.current]
    ensures t.current == |s.arena| < |t.arena| && t.current !in s.stack
    ensures forall k :: k in t.arena[t.current] <==> exists i :: 0 <= i < |attrs| && attrs[i].key == Decoded(k)
    ensures forall i :: 0 <= i < |attrs| && (forall j :: i < j < |attrs| ==> attrs[j].key != attrs[i].key)
              ==> t.arena[t.current][attrs[i].key.text] == Str(attrs[i].value.text)
  {
    StartShape(s, Decoded(name), attrs, t);
    SetAttributesKeys(map[], attrs);
    SetAttributesLastWins(map[], attrs);
  }

  /** The first start tag creates the root wrapper, whose one key is the tag
      name bound to the new element; no existing object changes. */
  lemma FirstStartCreatesRoot(s: State, name: string, attrs: seq<Attribute>, t: State)
    requires WellFormed(s) && s.root.None? && Step(s, Start(Decoded(name), attrs)) == Next(t)
    ensures |t.arena| == |s.arena| + 2 && t.arena[..|s.arena|] == s.arena
    ensures t.root == Some(|s.arena| + 1) && t.arena[|s.arena| + 1] == map[name := Ref(|s.arena|)]
  {
    StartShape(s, Decoded(name), attrs, t);
  }

  /** A later start tag changes only the parent's entry for the tag name (the
      parent being the handle now on top of the stack) and adds the new object. */
  lemma StartAttachesToParent(s: State, name: string, attrs: seq<Attribute>, t: State)
    requires WellFormed(s) && s.root.Some? && Step(s, Start(Decoded(name), attrs)) == Next(t)
    ensures t.root == s.root && |t.arena| == |s.arena| + 1 && t.stack[|t.stack| - 1] == s.current
    ensures forall j :: 0 <= j < |s.arena| && j != s.current ==> t.arena[j] == s.arena[j]
    ensures var before, after := s.arena[s.current], t.arena[s.current];
            && (forall k :: k != name ==> (k in after <==> k in before))
            && (forall k :: k != name && k in before ==> after[k] == before[k])
            && name in after
            && (name !in before ==> after[name] == Ref(t.current))
            && (name in before && !before[name].Arr? ==> after[name] == Arr([before[name], Ref(t.current)]))
            && (name in before && before[name].Arr? ==> after[name] == before[name])
  {
    StartShape(s, Decoded(name), attrs, t);
    LinkGrows(s.arena[s.current], name, |s.arena|);
  }

  /** An end tag pops the parent into `current`; with an empty stack it changes nothing. */
  lemma EndPops(s: State, t: State)
    requires WellFormed(s) && Step(s, End) == Next(t)
    ensures s.stack == [] ==> t == s
    ensures s.stack != [] ==> t.stack + [t.current] == s.stack && t.arena == s.arena && t.root == s.root
  {
  }

  /** Text sets `#text` of the open object to the untrimmed text when it is
      not all whitespace, and otherwise changes nothing. */
  lemma TextSetsText(s: State, text: string, t: State)
    requires WellFormed(s) && Step(s, Text(Decoded(text))) == Next(t)
    ensures Blank(text) ==> t == s
    ensures !Blank(text) ==>
              && t.stack == s.stack && t.current == s.current && t.root == s.root
              && |t.arena| == |s.arena|
              && (forall j :: 0 <= j < |s.arena| && j != s.current ==> t.arena[j] == s.arena[j])
              && t.arena[s.current] == s.arena[s.current][TEXT_KEY := Str(text)]
  {
    TrimEmptyIffBlank(text);
  }

  /** The events with every ignored one (empty-element tags, comments, CDATA,
      declarations, processing instructions, doctypes) taken out. */
  function WithoutIgnored(events: seq<Event>): (r: seq<Event>)
    ensures |r| <= |events|
    ensures forall i :: 0 <= i < |r| ==> !r[i].Other?
    decreases |events|
  {
    if events == [] then []
    else if events[0].Other? then WithoutIgnored(events[1..])
    else [events[0]] + WithoutIgnored(events[1..])
  }

  /** Ignored events change no state: the loop ends the same without them. */
  lemma {:induction false} RunIgnoresOther(s: State, events: seq<Event>)
    requires WellFormed(s)
    ensures Run(s, events) == Run(s, WithoutIgnored(events))
    decreases |events|
  {
    if events != [] {
      var rest := events[1..];
      if events[0].Other? {
        RunIgnoresOther(s, rest);
      } else {
        var kept := [events[0]] + WithoutIgnored(rest);
        assert kept[0] == events[0] && kept[1..] == WithoutIgnored(rest);
        match Step(s, events[0])
        case Next(t) => RunIgnoresOther(t, rest);
        case Finished =>
        case Aborted(_) =>
      }
    }
  }

  // ---------------------------------------------------------------------------
  // All or nothing

  /** The loop fails exactly when some event before end of input fails, and
      then with the failure of the first such event. */
  lemma {:induction false} RunAborts(s: State, events: seq<Event>)
    requires WellFormed(s)
    ensures Run(s, events).Err? <==> exists i :: FailsAt(events, i)
    ensures forall i :: FirstFailureAt(events, i) ==> Run(s, events) == Err(EventFailure(events[i]).value)
    decreases |events|
  {
    if events != [] {
      var rest := events[1..];
      assert forall i :: 1 <= i < |events| ==> events[i] == rest[i - 1];
      StepAborts(s, events[0]);
      match Step(s, events[0])
      case Next(t) =>
        RunAborts(t, rest);
        forall i | FailsAt(rest, i) ensures FailsAt(events, i + 1) {
        }
        forall i | FailsAt(events, i) ensures i > 0 && FailsAt(rest, i - 1) {
        }
        forall i | FirstFailureAt(events, i) ensures Run(s, events) == Err(EventFailure(events[i]).value) {
          assert FirstFailureAt(rest, i - 1);
        }
      case Finished =>
        forall i | FailsAt(events, i) ensures false {
        }
      case Aborted(f) =>
        assert FailsAt(events, 0);
    }
  }

  /** `parse_string_promise` yields an error, and no tree at all, exactly when
      an event before end of input fails; the error is the first one's. */
  lemma ConvertAllOrNothing(events: seq<Event>)
    ensures Convert(events).Err? <==> exists i :: FailsAt(events, i)
    ensures forall i :: FirstFailureAt(events, i) ==> Convert(events) == Err(EventFailure(events[i]).value)
  {
    RunAborts(Init(), events);
  }

  // ---------------------------------------------------------------------------
  // The root wrapper

  /** Once the root wrapper exists, no event replaces or changes it. */
  lemma {:induction false} RunKeepsRoot(s: State, events: seq<Event>)
    requires WellFormed(s) && s.root.Some? && Run(s, events).Ok?
    ensures var t := Run(s, events).value;
            && t.root == s.root && |s.arena| <= |t.arena|
            && t.arena[s.root.value] == s.arena[s.root.value]
    decreases |events|
  {
    if events != [] {
      match Step(s, events[0])
      case Next(t) => RunKeepsRoot(t, events[1..]);
      case Finished =>
      case Aborted(_) =>
    }
  }

  /** Before the root exists, the first start tag decides it: the wrapper's
      one key is that tag's name, bound to that tag's object. With no start
      tag there is no root and no object beyond the initial ones. */
  lemma {:induction false} RunFindsRoot(s: State, events: seq<Event>)
    requires WellFormed(s) && s.root.None? && Run(s, events).Ok?
    ensures var t := Run(s, events).value;
            match FirstStart(events)
            case None => t.root.None?
            case Some(name) =>
              && name.Decoded?
              && t.root == Some(|s.arena| + 1) && |s.arena| + 1 < |t.arena|
              && t.arena[|s.arena| + 1] == map[name.text := Ref(|s.arena|)]
    decreases |events|
  {
    if events != [] && !events[0].Eof? && Step(s, events[0]).Next? {
      var t := Step(s, events[0]).state;
      if events[0].Start? {
        assert StartStep(s, events[0].name, events[0].attrs) == Ok(t);
        StartShape(s, events[0].name, events[0].attrs, t);
        RunKeepsRoot(t, events[1..]);
      } else {
        OtherStepShape(s, events[0]);
        RunFindsRoot(t, events[1..]);
      }
    }
  }

  /** The result is the one-key wrapper {first tag name: its object}, at
      handle 2 (handle 1 is that object, 0 the detached initial one), or an
      empty object when no start tag came before end of input. */
  lemma ConvertRoot(events: seq<Event>)
    requires Convert(events).Ok?
    ensures var d := Convert(events).value;
            && d.top < |d.arena|
            && match FirstStart(events)
               case None => d.arena[d.top] == map[]
               case Some(name) => name.Decoded? && d.top == 2 && d.arena[2] == map[name.text := Ref(1)]
  {
    RunFindsRoot(Init(), events);
  }

  // ---------------------------------------------------------------------------
  // Sequences of same-named siblings

  /** A stored array has two elements: a non-array value seen first, then a
      handle on the second same-named element. */
  predicate TwoElements(v: Value) {
    v.Arr? ==> |v.items| == 2 && !v.items[0].Arr? && v.items[1].Ref?
  }

  predicate ArraysHaveTwo(arena: seq<Node>) {
    forall j, k :: 0 <= j < |arena| && k in arena[j] ==> TwoElements(arena[j][k])
  }

  lemma ArraysAtOne(a: seq<Node>, b: seq<Node>, p: nat)
    requires ArraysHaveTwo(a) && p < |a| <= |b|
    requires forall k :: k in b[p] ==> TwoElements(b[p][k])
    requires forall j :: 0 <= j < |a| && j != p ==> b[j] == a[j]
    requires forall j, k :: |a| <= j < |b| && k in b[j] ==> TwoElements(b[j][k])
    ensures ArraysHaveTwo(b)
  {
    forall j, k | 0 <= j < |b| && k in b[j] ensures TwoElements(b[j][k]) {
      if j < |a| && j != p {
        assert b[j] == a[j];
      }
    }
  }

  lemma StepKeepsArrays(s: State, e: Event)
    requires WellFormed(s) && ArraysHaveTwo(s.arena) && Step(s, e).Next?
    ensures ArraysHaveTwo(Step(s, e).state.arena)
  {
    var t := Step(s, e).state;
    if e.Start? {
      assert StartStep(s, e.name, e.attrs) == Ok(t);
      StartShape(s, e.name, e.attrs, t);
      SetAttributesWritesStrings(map[], e.attrs);
      LinkKeepsArrays(s.arena[s.current], e.name.text, |s.arena|);
    } else {
      OtherStepShape(s, e);
      if e.Text? {
        TextShape(s, e.content, t);
      }
    }
    ArraysAtOne(s.arena, t.arena, s.current);
  }

  lemma {:induction false} RunKeepsArrays(s: State, events: seq<Event>)
    requires WellFormed(s) && ArraysHaveTwo(s.arena) && Run(s, events).Ok?
    ensures ArraysHaveTwo(Run(s, events).value.arena)
    decreases |events|
  {
    if events != [] && Step(s, events[0]).Next? {
      StepKeepsArrays(s, events[0]);
      RunKeepsArrays(Step(s, events[0]).state, events[1..]);
    }
  }

  /** Every array in the result has exactly two elements: a third same-named
      sibling is never attached. */
  lemma ConvertArraysHaveTwo(events: seq<Event>)
    requires Convert(events).Ok?
    ensures ArraysHaveTwo(Convert(events).value.arena)
  {
    RunKeepsArrays(Init(), events);
  }

  /** How a stored value may evolve: unchanged, or a non-array value becomes
      the array that starts with it. */
  predicate Grows(v: Value, w: Value) {
    w == v || (!v.Arr? && w.Arr? && |w.items| == 2 && w.items[0] == v)
  }

  /** No object loses a key (other than `#text`), and each such value only grows. */
  predicate Persists(a: seq<Node>, b: seq<Node>) {
    && |a| <= |b|
    && forall j, k :: 0 <= j < |a| && k in a[j] && k != TEXT_KEY ==> k in b[j] && Grows(a[j][k], b[j][k])
  }

  /** Keys other than `#text` stay in the object, and their values only grow. */
  predicate NodeGrows(m: Node, m': Node) {
    forall k :: k in m && k != TEXT_KEY ==> k in m' && Grows(m[k], m'[k])
  }

  lemma PersistsAtOne(a: seq<Node>, b: seq<Node>, p: nat)
    requires |a| <= |b| && p < |a| && NodeGrows(a[p], b[p])
    requires forall j :: 0 <= j < |a| && j != p ==> b[j] == a[j]
    ensures Persists(a, b)
  {
    forall j, k | 0 <= j < |a| && k in a[j] && k != TEXT_KEY ensures k in b[j] && Grows(a[j][k], b[j][k]) {
      if j != p {
        assert b[j] == a[j];
      }
    }
  }

  lemma StepPersists(s: State, e: Event)
    requires WellFormed(s) && Step(s, e).Next?
    ensures Persists(s.arena, Step(s, e).state.arena)
  {
    var t := Step(s, e).state;
    if e.Start? {
      assert StartStep(s, e.name, e.attrs) == Ok(t);
      StartShape(s, e.name, e.attrs, t);
      LinkGrows(s.arena[s.current], e.name.text, |s.arena|);
    } else {
      OtherStepShape(s, e);
      if e.Text? {
        TextShape(s, e.content, t);
      }
    }
    assert NodeGrows(s.arena[s.current], t.arena[s.current]);
    PersistsAtOne(s.arena, t.arena, s.current);
  }

  /** Over any run, keys other than `#text` stay, a value becomes an array at
      most once (old value first) and an array never changes or reverts. */
  lemma {:induction false} RunPersists(s: State, events: seq<Event>)
    requires WellFormed(s) && Run(s, events).Ok?
    ensures Persists(s.arena, Run(s, events).value.arena)
    decreases |events|
  {
    if events != [] && Step(s, events[0]).Next? {
      var t := Step(s, events[0]).state;
      StepPersists(s, events[0]);
      RunPersists(t, events[1..]);
      var u := Run(s, events).value;
      forall j, k | 0 <= j < |s.arena| && k in s.arena[j] && k != TEXT_KEY
        ensures k in u.arena[j] && Grows(s.arena[j][k], u.arena[j][k])
      {
        assert Grows(s.arena[j][k], t.arena[j][k]);
        assert Grows(t.arena[j][k], u.arena[j][k]);
      }
    }
  }

  // ---------------------------------------------------------------------------
  // Worked documents

  /** An empty child element `<name></name>` adds one empty object, linked
      into the open element, and leaves that element open again. */
  lemma EmptyChild(s: State, name: string, rest: seq<Event>)
    requires WellFormed(s) && s.root.Some?
    ensures var t := s.(arena := (s.arena + [map[]])[s.current := Link(s.arena[s.current], name, |s.arena|)]);
            WellFormed(t) && Run(s, [Start(Decoded(name), []), End] + rest) == Run(t, rest)
  {
    var events := [Start(Decoded(name), []), End] + rest;
    var t := s.(arena := (s.arena + [map[]])[s.current := Link(s.arena[s.current], name, |s.arena|)]);
    var u := t.(stack := s.stack + [s.current], current := |s.arena|);
    assert Step(s, events[0]) == Next(u);
    assert Step(u, events[1]) == Next(t);
    assert events[1..][1..] == rest;
  }

  /** Three same-named children of an element without that key: the first
      two become the array of their handles [n, n + 1]; the third (n + 2) is
      not attached, because the push lands on the copy `Array.from` returns. */
  lemma ThirdSameNamedSiblingDropped(parent: Node, name: string, n: nat)
    requires name !in parent
    ensures Link(Link(Link(parent, name, n), name, n + 1), name, n + 2)
              == parent[name := Arr([Ref(n), Ref(n + 1)])]
  {
    var one := Link(parent, name, n);
    assert name in one && one[name] == Ref(n);
    var two := Link(one, name, n + 1);
    assert two == parent[name := Arr([Ref(n), Ref(n + 1)])];
  }

  /** `<a><b/></a>`: the empty-element tag is ignored, so `a` stays empty. */
  lemma EmptyElementTagIgnored()
    ensures Convert([Start(Decoded("a"), []), Other, End, Eof])
              == Ok(Document([map[], map[], map["a" := Ref(1)]], 2))
  {
    var events := [Start(Decoded("a"), []), Other, End, Eof];
    var s1 := State([map[], map[], map["a" := Ref(1)]], [0], 1, Some(2));
    var s3 := s1.(stack := [], current := 0);
    assert Step(Init(), events[0]) == Next(s1);
    assert Run(s3, events[3..]) == Ok(s3);
    assert Run(s1, events[2..]) == Ok(s3);
    assert Run(s1, events[1..]) == Ok(s3);
  }

  /** `<a>   </a>`: an element whose only text is whitespace gets no `#text`. */
  lemma BlankTextDropped(text: string)
    requires Blank(text)
    ensures Convert([Start(Decoded("a"), []), Text(Decoded(text)), End, Eof])
              == Ok(Document([map[], map[], map["a" := Ref(1)]], 2))
  {
    var events := [Start(Decoded("a"), []), Text(Decoded(text)), End, Eof];
    var s1 := State([map[], map[], map["a" := Ref(1)]], [0], 1, Some(2));
    var s3 := s1.(stack := [], current := 0);
    TrimEmptyIffBlank(text);
    assert Step(Init(), events[0]) == Next(s1);
    assert Step(s1, events[1]) == Next(s1);
    assert Run(s3, events[3..]) == Ok(s3);
    assert Run(s1, events[2..]) == Ok(s3);
    assert Run(s1, events[1..]) == Ok(s3);
  }

  /** `<a>hi</a>`: any text that is not all whitespace becomes `#text` of `a`, untrimmed. */
  lemma TextKept(text: string)
    requires !Blank(text)
    ensures Convert([Start(Decoded("a"), []), Text(Decoded(text)), End, Eof])
              == Ok(Document([map[], map[TEXT_KEY := Str(text)], map["a" := Ref(1)]], 2))
  {
    TrimEmptyIffBlank(text);
    TrimmedTextKept(text);
  }

  lemma TrimmedTextKept(text: string)
    requires Trim(text) != []
    ensures Convert([Start(Decoded("a"), []), Text(Decoded(text)), End, Eof])
              == Ok(Document([map[], map[TEXT_KEY := Str(text)], map["a" := Ref(1)]], 2))
  {
    var events := [Start(Decoded("a"), []), Text(Decoded(text)), End, Eof];
    var s1 := State([map[], map[], map["a" := Ref(1)]], [0], 1, Some(2));
    var s3 := State([map[], map[TEXT_KEY := Str(text)], map["a" := Ref(1)]], [], 0, Some(2));
    assert Step(Init(), events[0]) == Next(s1);
    TextThenClose(s1, text);
    assert events[1..] == [Text(Decoded(text)), End, Eof];
    assert Run(Init(), events) == Ok(s3);
    assert Output(s3) == Document(s3.arena, 2);
  }

  /** The tail of `TrimmedTextKept`, after `<a>` opened. */
  lemma TextThenClose(s1: State, text: string)
    requires s1 == State([map[], map[], map["a" := Ref(1)]], [0], 1, Some(2))
    requires Trim(text) != []
    ensures WellFormed(s1)
    ensures Run(s1, [Text(Decoded(text)), End, Eof])
              == Ok(State([map[], map[TEXT_KEY := Str(text)], map["a" := Ref(1)]], [], 0, Some(2)))
  {
    var events := [Text(Decoded(text)), End, Eof];
    var s2 := s1.(arena := [map[], map[TEXT_KEY := Str(text)], map["a" := Ref(1)]]);
    var s3 := s2.(stack := [], current := 0);
    assert Step(s1, events[0]) == Next(s2) by {
      assert s1.arena[1 := s1.arena[1][TEXT_KEY := Str(text)]] == s2.arena;
    }
    assert Run(s3, events[2..]) == Ok(s3);
    assert Run(s2, events[1..]) == Ok(s3);
  }
}
