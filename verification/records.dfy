/** Values the upload scripts read from definition files and from the remote service.
    Only the attributes the scripts inspect get a field of their own; everything else
    a record carries travels untouched in `attrs`. */
module Records {

  datatype Option<+T> = None | Some(value: T)

  /** A parsed JSON value. Numbers are integers here: the scripts never compute with them. */
  datatype Json =
    | JNull
    | JBool(b: bool)
    | JNum(n: int)
    | JStr(s: string)
    | JArr(items: seq<Json>)
    | JObj(entries: map<string, Json>)

  /** JavaScript truthiness of a JSON value (NaN does not occur in parsed JSON integers). */
  predicate Truthy(v: Json)
  {
    match v
    case JNull => false
    case JBool(b) => b
    case JNum(n) => n != 0
    case JStr(s) => s != ""
    case JArr(_) => true
    case JObj(_) => true
  }

  /** Truthiness of an optional id reference: absent, null and "" are all falsy. */
  predicate Present(ref: Option<string>)
  {
    ref.Some? && ref.value != ""
  }

  /** A field definition of a collection; `meta` is None when the key is absent. */
  datatype Field = Field(name: string, meta: Option<Json>, attrs: map<string, Json>)

  /** A relation definition; `relatedCollection` is None for a null related_collection. */
  datatype Relation = Relation(field: string, relatedCollection: Option<string>, attrs: map<string, Json>)

  /** A collection definition file; `fields` and `relations` are None when the key is absent or null. */
  datatype Collection = Collection(
    name: string,
    fields: Option<seq<Field>>,
    relations: Option<seq<Relation>>,
    attrs: map<string, Json>)

  /** One step of a flow, with its success (`resolve`) and failure (`reject`) edges. */
  datatype Operation = Operation(
    id: string,
    resolve: Option<string>,
    reject: Option<string>,
    flow: Option<string>,
    userCreated: Option<Json>,
    attrs: map<string, Json>)

  /** A flow definition file; `operations` is None when the key is absent or not an array. */
  datatype Flow = Flow(
    id: string,
    operations: Option<seq<Operation>>,
    userCreated: Option<Json>,
    attrs: map<string, Json>)

  /** A flow as listed by GET /flows: its id and the ids of its operations (None when not an array). */
  datatype RemoteFlow = RemoteFlow(id: string, operations: Option<seq<string>>)
}
