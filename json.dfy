/**
 * The free-form metadata attached to a log record, and the JSON codec that
 * turns it into the text stored in the `metadata` column.
 *
 * Go's encoding/json is a foreign library: the model does not describe JSON
 * syntax. A codec is a pair of functions, and what the store relies on about
 * them is stated once, as the predicate `RoundTrips`.
 */
module Json {
  import opened Wrappers

  /** A dynamically typed JSON value, what `interface{}` holds after decoding. */
  datatype Value =
    | Null
    | Bool(b: bool)
    | Number(n: real)
    | Str(s: string)
    | Array(items: seq<Value>)
    | Object(fields: map<string, Value>)

  /** The `map[string]interface{}` of a log entry. */
  type Metadata = map<string, Value>

  /**
   * `encode` plays json.Marshal (None: the value cannot be serialised),
   * `decode` plays json.Unmarshal into a map (None: the text is malformed
   * or is not a JSON object).
   */
  datatype Codec = Codec(encode: Metadata -> Option<string>, decode: string -> Option<Metadata>) {

    /**
     * What json.Marshal and json.Unmarshal promise each other: whatever
     * encodes, encodes to non-empty text that decodes back to itself.
     */
    ghost predicate RoundTrips() {
      forall m :: encode(m).Some? ==> encode(m).value != "" && decode(encode(m).value) == Some(m)
    }
  }
}
