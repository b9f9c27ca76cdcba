/**
 The program's outside world, reduced to values: paths, decoded JSON
 documents, a file system that maps paths to what was last written there,
 and the HTTP requests the program sends.
 */
module Files {

  /** A path: the directory components and the file name (`Path.parent`, `Path.name`). */
  datatype FilePath = FilePath(dir: seq<string>, name: string)

  /** A JSON value as `json.loads` returns it (numbers restricted to integers). */
  datatype Json =
    | JObject(fields: map<string, Json>)
    | JArray(items: seq<Json>)
    | JString(text: string)
    | JNumber(number: int)
    | JBool(flag: bool)
    | JNull

  /**
   What a file holds: records written by a `csv.writer`, a JSON document, or
   any other text.
   */
  datatype Content =
    | Records(rows: seq<seq<string>>)
    | Document(doc: Json)
    | Text(text: string)

  type FileSystem = map<FilePath, Content>

  /** Python truthiness of a decoded JSON value (`bool(v)`). */
  predicate Truthy(j: Json) {
    match j
    case JObject(m) => |m| > 0
    case JArray(xs) => |xs| > 0
    case JString(t) => |t| > 0
    case JNumber(n) => n != 0
    case JBool(b) => b
    case JNull => false
  }

  /** A list of strings as a JSON array. */
  function Strings(xs: seq<string>): (j: Json)
    ensures j.JArray? && |j.items| == |xs|
    ensures forall k :: 0 <= k < |xs| ==> j.items[k] == JString(xs[k])
  {
    JArray(seq(|xs|, k requires 0 <= k < |xs| => JString(xs[k])))
  }

  /** An HTTP GET request: the URL and the query parameters, in order. */
  datatype Request = Request(url: string, params: seq<(string, string)>)
}
