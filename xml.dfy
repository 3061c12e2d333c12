/** Events the XML reader hands to the tree builder, and the values the builder
    stores in its JavaScript-like objects. The reader itself (tokenizing, end-name
    checking, UTF-8 decoding, entity unescaping) is abstracted: its decoding
    outcome for a tag name, an attribute key or value, or a text is a `Payload`. */
module Xml {

  datatype Option<T> = None | Some(value: T)

  /** A name or text as the reader delivers it: decoded, or failing to decode
      (invalid UTF-8 in a name, an unknown entity in a value or text). */
  datatype Payload = Decoded(text: string) | Undecodable

  datatype Attribute = Attribute(key: Payload, value: Payload)

  /** One result of `read_event`: a start tag, an end tag, text, end of input,
      any event the builder ignores (empty-element tags, comments, CDATA,
      declarations, processing instructions, doctypes), or a reader error. */
  datatype Event =
    | Start(name: Payload, attrs: seq<Attribute>)
    | End
    | Text(content: Payload)
    | Eof
    | Other
    | Fail

  /** The stage that failed; the error message's debug text is not modelled. */
  datatype Failure = ReaderError | BadTagName | BadAttributeKey | BadAttributeValue | BadText

  datatype Result<T> = Ok(value: T) | Err(error: Failure)

  /** A property value: a string (attribute value or text), a handle on another
      object (an index into the arena), or a JavaScript array. */
  datatype Value = Str(s: string) | Ref(node: nat) | Arr(items: seq<Value>)

  /** A JavaScript object, as a finite map from property names to values. */
  type Node = map<string, Value>

  /** The property under which an element's text is stored. */
  const TEXT_KEY: string := "#text"
}
