/**
 * The documents the index build works on: an OTU holds isolates, an isolate holds
 * sequences. Fields that a stored document may lack are `Option`s; the fields the
 * build itself always reads (`_id`, `isolates`, `default`, `sequences`, `sequence`)
 * are always present.
 *
 * Each record can also be read key by key (`OtuField`, `IsolateField`, `SequenceField`),
 * as the Python code reads a dictionary, so that the export's `doc[key]` (which fails on a
 * missing key) and `doc.get(key)` (which yields `None`) can be stated for any key list.
 */
module Documents {
  import opened Wrappers

  /** A field value of a stored document. */
  datatype Value =
    | Null
    | Bool(b: bool)
    | Int(i: int)
    | Str(s: string)
    | List(items: seq<Value>)
    | Object(fields: map<string, Value>)

  /** The `remote` sub-document of a record mirrored from a remote reference. */
  datatype Remote = Remote(id: Option<string>)

  datatype Sequence = Sequence(
    id: string,
    accession: Option<Value>,
    definition: Option<Value>,
    host: Option<Value>,
    sequence: string,
    segment: Option<Value>,
    target: Option<Value>,
    remote: Option<Remote>)

  datatype Isolate = Isolate(
    id: Option<Value>,
    sourceType: Option<Value>,
    sourceName: Option<Value>,
    default: bool,
    sequences: seq<Sequence>)

  datatype Otu = Otu(
    id: string,
    name: Option<Value>,
    abbreviation: Option<Value>,
    schema: Option<Value>,
    isolates: seq<Isolate>,
    remote: Option<Remote>)

  /** The keys every exported isolate carries besides its sequences. */
  const IsolateKeys: seq<string> := ["id", "source_type", "source_name", "default"]

  /** The default keys of an exported OTU. */
  const OtuKeys: seq<string> := ["name", "abbreviation", "schema"]

  /** The default keys of an exported sequence. */
  const SequenceKeys: seq<string> := ["accession", "definition", "host", "sequence"]

  /** The `remote` sub-document as a field value. */
  function RemoteValue(r: Remote): Value {
    Object(if r.id.Some? then map["id" := Str(r.id.value)] else map[])
  }

  /** `s[key]` on a sequence document: its value, or `None` when the document lacks the key. */
  function SequenceField(s: Sequence, key: string): Option<Value> {
    if key == "_id" then Some(Str(s.id))
    else if key == "sequence" then Some(Str(s.sequence))
    else if key == "accession" then s.accession
    else if key == "definition" then s.definition
    else if key == "host" then s.host
    else if key == "segment" then s.segment
    else if key == "target" then s.target
    else if key == "remote" && s.remote.Some? then Some(RemoteValue(s.remote.value))
    else None
  }

  /** `i[key]` on an isolate document (its sequences aside). */
  function IsolateField(i: Isolate, key: string): Option<Value> {
    if key == "default" then Some(Bool(i.default))
    else if key == "id" then i.id
    else if key == "source_type" then i.sourceType
    else if key == "source_name" then i.sourceName
    else None
  }

  /** `o[key]` on an OTU document (its isolates aside). */
  function OtuField(o: Otu, key: string): Option<Value> {
    if key == "_id" then Some(Str(o.id))
    else if key == "name" then o.name
    else if key == "abbreviation" then o.abbreviation
    else if key == "schema" then o.schema
    else if key == "remote" && o.remote.Some? then Some(RemoteValue(o.remote.value))
    else None
  }

  /**
   * The identifier a record is exported under: `remote.id` when the record has a
   * `remote` holding an `id`, its own `_id` otherwise.
   */
  function RemoteIdOr(id: string, remote: Option<Remote>): (r: string)
    ensures remote.Some? && remote.value.id.Some? ==> r == remote.value.id.value
    ensures remote.None? || remote.value.id.None? ==> r == id
  {
    match remote
    case Some(Remote(Some(rid))) => rid
    case _ => id
  }
}
