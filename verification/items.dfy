/** Values the replication job moves around: attribute values, items, write requests and scan pages. */
module Items {

  datatype Option<+T> = None | Some(value: T)

  /** The outcome of an awaited call: its value, or the exception it threw. */
  datatype Result<+T> = Ok(value: T) | Threw

  /**
   * An attribute value, by its DynamoDB attribute type. The job never looks
   * inside a value, it only copies it. A number is kept as its decimal text: the document
   * client's conversion of numbers to JavaScript numbers (and the rounding of large ones) is
   * not part of this model. A list or map attribute is `Nested`, identified by its serialised
   * document: only equality of values matters to the job, and the encoding keeps it.
   * `Undefined` is what JavaScript yields for an absent attribute.
   */
  datatype Value =
    | Undefined
    | Null
    | Bool(b: bool)
    | Num(text: string)
    | Str(s: string)
    | Bin(bytes: seq<bv8>)
    | StrSet(strings: set<string>)
    | NumSet(numbers: set<string>)
    | BinSet(blobs: set<seq<bv8>>)
    | Nested(document: string)

  /** A scanned item: attribute name to value. */
  type Item = map<string, Value>

  /** A primary key (also the shape of a scan's LastEvaluatedKey). */
  type Key = map<string, Value>

  /** Reading `item[name]` in JavaScript. */
  function Get(item: Item, name: string): Value {
    if name in item then item[name] else Undefined
  }

  /** One entry of `RequestItems[tableName]`; a delete key may be `undefined`. */
  datatype WriteRequest = PutRequest(item: Item) | DeleteRequest(key: Option<Key>)

  /** One scan response: the items, and the continuation key (absent on the last page). */
  datatype Page = Page(items: seq<Item>, lastEvaluatedKey: Option<Key>)
}
