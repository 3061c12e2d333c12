# wasm-xml2json: the event-to-tree builder

`parse_string_promise` (src/lib.rs) turns an XML document into a nested
JavaScript object: each element becomes an object whose properties are its
attributes (string values), its child elements (an object, or an array once a
second child of the same name appears) and its text under `#text`; the result
wraps the root element in a one-key object `{rootName: rootObject}`. It pulls
events from a quick-xml `Reader` and keeps a stack of handles on ancestor
objects, the open object, and the optional root wrapper.

This project models that builder in Dafny.

- `xml.dfy` (module `Xml`): the reader's events (`Start`, `End`, `Text`, `Eof`,
  `Other` for every event the loop ignores, `Fail` for a reader error), payloads
  that decode or fail to, the error stages, and property values
  `Str | Ref(handle) | Arr(items)`.
- `whitespace.dfy` (module `Whitespace`): Rust's `str::trim` over Unicode
  White_Space, and the fact that a trimmed text is empty exactly when it is all
  whitespace.
- `semantics.dfy` (module `Semantics`): the builder as pure step functions over
  a state made of an arena of objects (a handle is an index; handle 0 is the
  detached object the loop starts with), the stack of handles, the open handle
  and the root-wrapper handle. `Convert` is the whole parse.
- `builder.dfy` (module `Builder`): the builder as the source runs it. Class
  `TreeBuilder` holds the arena, stack, open handle and root; its methods update
  them in place (`HandleAttributes` with its loop over the attributes).
  `ParseStringPromise` is the pull loop. Each method is proved to perform
  exactly the corresponding step of `Semantics`, and the loop to return
  `Convert(events)`.
- `properties.dfy` (module `Properties`): what the builder guarantees, proved
  about `Semantics`.

Where the intended behaviour and the code differ, the model follows the code:

- A third (and any later) same-named sibling is built but not attached. When
  the key already holds an array, line 60 pushes onto `Array.from(existing)`,
  a shallow copy that is then dropped. Stored arrays therefore always have
  exactly two elements (`ConvertArraysHaveTwo`, `ThirdSameNamedSiblingDropped`,
  `EmptyChild`), not one element per sibling.
- Empty-element tags such as `<a/>` are a separate reader event that the
  catch-all at line 27 ignores, so `<a/>` gives `{}` rather than `{a: {}}`, and
  `<a><b/></a>` gives `{a: {}}` (`EmptyElementTagIgnored`).
- Text before the first start tag, or after the root closes, is stored as
  `#text` on the detached initial object (handle 0), which is never part of
  the result.
- An attribute and a child element with the same name collide: the attribute's
  string and the child become a two-element array.

## Model

| member | source | states |
|---|---|---|
| Whitespace.TrimStart | src/lib.rs:76 | the result is a suffix of the text, everything dropped is whitespace, and it does not start with whitespace |
| Whitespace.TrimEnd | src/lib.rs:76 | the result is a prefix of the text, everything dropped is whitespace, and it does not end with whitespace |
| Whitespace.Trim | src/lib.rs:76 | `trim` yields a slice `s[i..j]` with only whitespace outside it and no whitespace at either of its ends |
| Whitespace.TrimEmptyIffBlank | src/lib.rs:76 | the trimmed text is empty exactly when every character is whitespace |
| Semantics.Init | src/lib.rs:8-10 | the loop starts with one detached empty object as the open object, an empty stack and no root |
| Semantics.StartStep | src/lib.rs:34-70 | a start tag keeps every handle inside the arena and keeps the root wrapper off the stack and not open |
| Semantics.EndStep | src/lib.rs:17-21 | an end tag keeps every handle inside the arena and keeps the root wrapper off the stack and not open |
| Semantics.TextStep | src/lib.rs:72-80 | a text event keeps every handle inside the arena and keeps the root wrapper off the stack and not open |
| Semantics.Step | src/lib.rs:13-28 | one turn of the loop preserves those handle invariants |
| Semantics.Run | src/lib.rs:12-29 | the whole loop preserves those handle invariants |
| Semantics.Output | src/lib.rs:31 | the returned handle points into the final arena, which extends the builder's; with no root it is a fresh empty object |
| Builder.TreeBuilder.constructor | src/lib.rs:7-10 | the builder starts in the initial state |
| Builder.TreeBuilder.HandleAttributes | src/lib.rs:82-93 | the loop sets each attribute on the open object in order and changes nothing else, or stops with the key or value stage that failed |
| Builder.TreeBuilder.ProcessStartEvent | src/lib.rs:34-70 | the in-place update equals the start step: push, fresh object, root wrapper or parent link; or the failing stage |
| Builder.TreeBuilder.PopParent | src/lib.rs:17-21 | the in-place update equals the end step |
| Builder.TreeBuilder.ProcessTextEvent | src/lib.rs:72-80 | the in-place update equals the text step, or reports the text stage failing |
| Builder.TreeBuilder.Finish | src/lib.rs:31 | returns the root wrapper, or a new empty object when there is none |
| Builder.ParseStringPromise | src/lib.rs:6-32 | the pull loop returns exactly `Convert(events)`, so every property below holds of it |
| Properties.SetAttributesFailure | src/lib.rs:83-89 | setting attributes succeeds exactly when every key and value decodes; otherwise it fails with the stage of the first that does not |
| Properties.SetAttributesKeys | src/lib.rs:83-91 | after setting the attributes the object holds exactly its earlier keys and the attribute keys |
| Properties.SetAttributesLastWins | src/lib.rs:83-91 | when setting succeeds every key and value decoded, and a key given by several attributes holds the value of the last of them |
| Properties.SetAttributesUntouched | src/lib.rs:83-91 | a key that no attribute names keeps its earlier value |
| Properties.SetAttributesWritesStrings | src/lib.rs:90 | every key of the result either keeps its earlier value or holds a string |
| Properties.StepAborts | src/lib.rs:13-28 | one event aborts exactly when it is a reader error or something in it does not decode, with that stage; only end of input stops the loop |
| Properties.StartOpensNode | src/lib.rs:44-47 | a start tag pushes exactly the old open handle and opens a fresh object holding exactly the attribute keys, last value winning |
| Properties.FirstStartCreatesRoot | src/lib.rs:49-51 | the first start tag creates the wrapper whose only key is the tag name, bound to the new object, and changes no existing object |
| Properties.StartAttachesToParent | src/lib.rs:53-66 | a later start tag changes only the parent's entry for the tag: absent becomes the child, a non-array becomes [old, child], an array stays as it was |
| Properties.EndPops | src/lib.rs:17-21 | an end tag pops one handle into the open object, or changes nothing on an empty stack |
| Properties.TextSetsText | src/lib.rs:72-79 | decoded text that is not all whitespace sets only the open object's `#text` to the untrimmed text; blank text changes nothing |
| Properties.RunIgnoresOther | src/lib.rs:27 | the events the catch-all ignores make no difference to the outcome |
| Properties.RunAborts | src/lib.rs:12-29 | the loop fails exactly when an event before end of input fails, and with the first such failure |
| Properties.ConvertAllOrNothing | src/lib.rs:6-32 | the parse returns an error and no tree exactly when an event before end of input fails, the first one's error |
| Properties.RunKeepsRoot | src/lib.rs:49-52 | once the root wrapper exists no later event replaces or changes it |
| Properties.RunFindsRoot | src/lib.rs:49-51 | the first start tag decides the wrapper's one key and its object; with no start tag there is no root |
| Properties.ConvertRoot | src/lib.rs:31 | the result is `{first tag name: its object}` when a start tag occurred and an empty object otherwise |
| Properties.StepKeepsArrays | src/lib.rs:57-66 | no event stores an array other than [non-array value, element handle] |
| Properties.RunKeepsArrays | src/lib.rs:57-66 | over the whole loop every stored array keeps that two-element shape |
| Properties.ConvertArraysHaveTwo | src/lib.rs:59-60 | every array in the result has exactly two elements |
| Properties.StepPersists | src/lib.rs:53-66 | one event never removes a key other than `#text`, and a value only stays or becomes the array that starts with it |
| Properties.RunPersists | src/lib.rs:57-66 | over any run an array never changes or reverts to a single value, and a value becomes an array at most once, old value first |
| Properties.EmptyChild | src/lib.rs:14-20 | an empty child element `<name></name>` adds one empty object, linked into the open object by the parent-link rule, and leaves that object open again |
| Properties.ThirdSameNamedSiblingDropped | src/lib.rs:57-66 | linking three same-named children under a new key gives the array of the first two handles; the third is not attached |
| Properties.EmptyElementTagIgnored | src/lib.rs:27 | `<a><b/></a>` gives `{a: {}}` |
| Properties.BlankTextDropped | src/lib.rs:76-78 | `<a>` holding any all-whitespace text gives `{a: {}}` |
| Properties.TextKept | src/lib.rs:76-78 | `<a>` holding any text that is not all whitespace gives `{a: {"#text": text}}`, untrimmed |

## Left out

- The quick-xml reader: tokenizing, end-tag name checking, entity unescaping and
  UTF-8 decoding are abstracted into the event sequence; a decoding failure is an
  `Undecodable` payload and a reader error the `Fail` event. Attributes the
  reader cannot parse, which `.flatten()` at line 83 skips, are simply absent
  from the event's attribute list.
- The event sequence is finite; running out of events is treated as end of
  input, as the reader keeps yielding `Eof` once the input is consumed.
- Error messages: only the failing stage is modelled, not the `Debug` text.
- JavaScript object semantics beyond own properties: objects are finite maps
  without a prototype, so the inherited properties `Reflect.get` would find for
  tag names such as `constructor` or `toString`, the special `__proto__` key,
  and property enumeration order are not modelled.
- wasm-bindgen marshalling of the result into a `JsValue`.
- Memory exhaustion on deeply nested input; the arena and stack are unbounded.
