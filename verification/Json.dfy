/**
 Kubernetes objects as JSON trees, with the metadata accessors of the unstructured
 helpers: a setter creates a missing metadata object and silently does nothing when
 metadata is present but is not an object.
 */
module Json {
  import opened Wrappers

  datatype Json =
    | Null
    | Bool(b: bool)
    | Number(n: int)
    | Text(s: string)
    | List(items: seq<Json>)
    | Object(fields: map<string, Json>)

  type Fields = map<string, Json>

  const METADATA := "metadata"

  predicate HasMetadata(j: Json) {
    j.Object? && METADATA in j.fields && j.fields[METADATA].Object?
  }

  /** Whether a metadata setter takes effect. */
  predicate Settable(j: Json) {
    j.Object? && (METADATA in j.fields ==> j.fields[METADATA].Object?)
  }

  function Metadata(j: Json): Fields {
    if HasMetadata(j) then j.fields[METADATA].fields else map[]
  }

  function WithMetadata(j: Json, m: Fields): Json
    requires j.Object?
  {
    Object(j.fields[METADATA := Object(m)])
  }

  function SetField(j: Json, name: string, value: Json): Json {
    if Settable(j) then WithMetadata(j, Metadata(j)[name := value]) else j
  }

  function RemoveField(j: Json, name: string): Json {
    if HasMetadata(j) then WithMetadata(j, Metadata(j) - {name}) else j
  }

  function PutField(j: Json, name: string, value: Option<Json>): Json {
    match value
    case Some(v) => SetField(j, name, v)
    case None => RemoveField(j, name)
  }

  function FieldText(m: Fields, name: string): string {
    if name in m && m[name].Text? then m[name].s else ""
  }

  function GetText(j: Json, name: string): string {
    FieldText(Metadata(j), name)
  }

  function OfText(s: string): Option<Json> {
    if s == "" then None else Some(Text(s))
  }

  /** A string map, when the field is an object whose values are all strings. */
  function FieldStrings(m: Fields, name: string): Option<map<string, string>> {
    if name in m && m[name].Object? && forall k | k in m[name].fields :: m[name].fields[k].Text?
    then Some(map k | k in m[name].fields :: m[name].fields[k].s)
    else None
  }

  function OfStrings(m: Option<map<string, string>>): Option<Json> {
    match m
    case None => None
    case Some(kv) => Some(Object(map k | k in kv :: Text(kv[k])))
  }

  function GetName(j: Json): string { GetText(j, "name") }

  function GetNamespace(j: Json): string { GetText(j, "namespace") }

  function SetNamespace(j: Json, ns: string): Json { PutField(j, "namespace", OfText(ns)) }

  function GetLabels(j: Json): map<string, string> {
    match FieldStrings(Metadata(j), "labels")
    case Some(kv) => kv
    case None => map[]
  }

  function SetLabels(j: Json, kv: map<string, string>): Json {
    PutField(j, "labels", OfStrings(Some(kv)))
  }

  /** Decoding a stored manifest: it must be an object that names its kind. */
  function Decode(raw: Json): Result<Json> {
    if raw.Object? && "kind" in raw.fields && raw.fields["kind"].Text? && raw.fields["kind"].s != ""
    then Ok(raw)
    else Err(Internal)
  }

  /** What decodes is an object with a kind, and it decodes to itself. */
  lemma DecodeExactly(raw: Json)
    ensures Decode(raw).Ok?
       <==> exists fields: Fields, kind: string ::
              kind != "" && raw == Object(fields) && "kind" in fields && fields["kind"] == Text(kind)
    ensures Decode(raw) == Ok(raw) || Decode(raw) == Err(Internal)
  {
    if Decode(raw).Ok? {
      assert raw == Object(raw.fields) && raw.fields["kind"] == Text(raw.fields["kind"].s);
    }
  }
}
