/** What the wire formats assume of JSON: `json.Marshal` of an event, and the strict decoder together with
    `ExecutionEvent.Validate`. */
module Json {
  import opened Wrappers
  import opened EventStore

  datatype Codec = Codec(marshal: Event -> string, unmarshal: string -> Option<Event>)

  /** An encoded event is one non-empty line that decodes to the event, and only valid events are decoded. */
  ghost predicate Lawful(json: Codec) {
    && (forall e :: ValidEvent(e) ==> var text := json.marshal(e);
          json.unmarshal(text) == Some(e) && text != "" && '\n' !in text && '\r' !in text)
    && (forall text :: json.unmarshal(text).Some? ==> ValidEvent(json.unmarshal(text).value))
  }
}
