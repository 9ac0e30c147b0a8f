/** The JSON-to-KDL transform of `src/main.rs`: `entry_to_kdl`, which turns
    one JSON value into a KDL entry, and `json_to_kdl`, which turns a JSON
    array of node descriptions into a KDL document. */
module Convert {
  import opened Wrappers
  import opened Numbers
  import Json
  import Kdl
  import Seqs

  /** Why a JSON value is not a KDL literal. Such failures never leave a
      node: the entry is dropped. */
  datatype EntryError =
    | NotALiteral     // an array, or an object left after unwrapping `value`
    | IntOutOfRange   // an integer above i64::MAX

  /** Why a document cannot be built. Each aborts the whole conversion. */
  datatype Error =
    | RootNotArray         // the root, or a `children` value, is not an array
    | NameNotString        // `name` is missing or not a string (or the node is not an object)
    | ArgumentsNotArray    // `arguments` is present and not an array
    | PropertiesNotObject  // `properties` is present and not an object
    | TypeNotString        // `type` is present, not null and not a string

  /** True when `v` has a KDL literal: a scalar whose integer, if any, fits i64. */
  predicate IsLiteral(v: Json.Value) {
    match v
    case Null => true
    case Bool(_) => true
    case Str(_) => true
    case Num(n) => !(n.PosInt? && n.u > I64_MAX)
    case _ => false
  }

  /** The JSON scalar a KDL literal comes from; the inverse of `Literal`. */
  function LiteralToJson(k: Kdl.Value): (v: Json.Value)
    ensures IsLiteral(v)
  {
    match k
    case Null => Json.Null
    case Bool(b) => Json.Bool(b)
    case Base10(i) => if i >= 0 then Json.Num(Json.PosInt(i)) else Json.Num(Json.NegInt(i))
    case Base10Float(f) => Json.Num(Json.Float(f))
    case String(s) => Json.Str(s)
  }

  /** The literal an (already unwrapped) JSON value becomes: the match of
      `entry_to_kdl`. A number's kind follows its representation: a float
      stays a float, an integer must fit i64. */
  function Literal(v: Json.Value): (r: Result<Kdl.Value, EntryError>)
    ensures r.Success? <==> IsLiteral(v)
    ensures r == Failure(NotALiteral) <==> v.Arr? || v.Obj?
    ensures r.Success? ==> LiteralToJson(r.value) == v
  {
    match v
    case Null => Success(Kdl.Null)
    case Bool(b) => Success(Kdl.Bool(b))
    case Num(n) =>
      (match n
       case Float(f) => Success(Kdl.Base10Float(f))
       case PosInt(u) => if u <= I64_MAX then Success(Kdl.Base10(u)) else Failure(IntOutOfRange)
       case NegInt(i) => Success(Kdl.Base10(i)))
    case Str(s) => Success(Kdl.String(s))
    case _ => Failure(NotALiteral)
  }

  /** The annotation of a raw entry value: its `type` field when that is a string. */
  function EntryType(v: Json.Value): (ty: Option<string>)
    ensures ty.Some? <==> v.Obj? && Json.Get(v, "type").Some? && Json.Get(v, "type").value.Str?
    ensures ty.Some? ==> Json.Get(v, "type") == Some(Json.Str(ty.value))
  {
    match Json.Get(v, "type")
    case Some(Str(t)) => Some(t)
    case _ => None
  }

  /** One level of `{"value": ..., "type": ...}` unwrapping. */
  function Unwrap(v: Json.Value): (u: Json.Value)
    ensures Json.Get(v, "value").Some? ==> u == Json.Get(v, "value").value
    ensures Json.Get(v, "value").None? ==> u == v
  {
    match Json.Get(v, "value")
    case Some(inner) => inner
    case None => v
  }

  /** `entry_to_kdl`: an unnamed entry holding the literal of the unwrapped
      value, annotated with the raw value's `type`. */
  function EntryToKdl(v: Json.Value): (r: Result<Kdl.Entry, EntryError>)
    ensures r.Success? <==> IsLiteral(Unwrap(v))
    ensures r.Success? ==> r.value.name.None?
    ensures r.Success? ==> LiteralToJson(r.value.value) == Unwrap(v)
    ensures r.Success? ==>
      (r.value.ty.Some? <==> v.Obj? && Json.Get(v, "type").Some? && Json.Get(v, "type").value.Str?)
  {
    var ty := EntryType(v);
    var lit :- Literal(Unwrap(v));
    Success(Kdl.Entry(None, ty, lit))
  }

  /** The entry of one `arguments` element, if it classifies. */
  function ArgumentEntry(v: Json.Value): Option<Kdl.Entry> {
    EntryToKdl(v).ToOption()
  }

  /** The entry of one `properties` field, named by its key, if its value
      classifies. */
  function PropertyEntry(field: (string, Json.Value)): Option<Kdl.Entry> {
    match EntryToKdl(field.1)
    case Success(e) => Some(e.(name := Some(field.0)))
    case Failure(_) => None
  }

  /** The positional entries of `arguments`: the elements that classify, in
      order; the others are dropped (`filter_map(... .ok())`). */
  function Arguments(vs: seq<Json.Value>): seq<Kdl.Entry> {
    Seqs.FilterMap(vs, ArgumentEntry)
  }

  /** The property entries of `properties`: each field whose value
      classifies, named by its key, in iteration order; the others are dropped. */
  function Properties(fields: seq<(string, Json.Value)>): seq<Kdl.Entry> {
    Seqs.FilterMap(fields, PropertyEntry)
  }

  /** The positional entries from a node's `arguments` field: none when
      absent, an error when not an array. */
  function NodeArguments(field: Option<Json.Value>): (r: Result<seq<Kdl.Entry>, Error>)
    ensures r.Failure? <==> field.Some? && !field.value.Arr?
    ensures r.Failure? ==> r.error == ArgumentsNotArray
    ensures field.None? ==> r == Success([])
  {
    match field
    case None => Success([])
    case Some(Arr(items)) => Success(Arguments(items))
    case Some(_) => Failure(ArgumentsNotArray)
  }

  /** The property entries from a node's `properties` field: none when
      absent, an error when not an object. */
  function NodeProperties(field: Option<Json.Value>): (r: Result<seq<Kdl.Entry>, Error>)
    ensures r.Failure? <==> field.Some? && !field.value.Obj?
    ensures r.Failure? ==> r.error == PropertiesNotObject
    ensures field.None? ==> r == Success([])
  {
    match field
    case None => Success([])
    case Some(Obj(fields)) => Success(Properties(fields))
    case Some(_) => Failure(PropertiesNotObject)
  }

  /** The node annotation from a node's `type` field: absent when the field
      is missing or null, an error when it is anything but a string. */
  function NodeType(field: Option<Json.Value>): (r: Result<Option<string>, Error>)
    ensures r.Failure? <==> field.Some? && !field.value.Null? && !field.value.Str?
    ensures r.Failure? ==> r.error == TypeNotString
    ensures r.Success? ==> (r.value.Some? <==> field.Some? && field.value.Str?)
    ensures r.Success? && r.value.Some? ==> field == Some(Json.Str(r.value.value))
  {
    match field
    case None => Success(None)
    case Some(Null) => Success(None)
    case Some(Str(t)) => Success(Some(t))
    case Some(_) => Failure(TypeNotString)
  }

  /** `json_to_kdl`: the document whose nodes are those of the root array,
      in order; the first node that fails aborts it. */
  function JsonToKdl(j: Json.Value): (r: Result<Kdl.Document, Error>)
    ensures !j.Arr? ==> r == Failure(RootNotArray)
    ensures r.Success? ==> j.Arr? && |r.value.nodes| == |j.items|
    decreases j, 1
  {
    match j
    case Arr(items) =>
      var nodes :- Nodes(items);
      Success(Kdl.Document(nodes))
    case _ => Failure(RootNotArray)
  }

  /** The nodes of an array, all or nothing: every element converted in
      order, or the error of the first element that fails. */
  function Nodes(items: seq<Json.Value>): (r: Result<seq<Kdl.Node>, Error>)
    ensures r.Success? <==> forall i :: 0 <= i < |items| ==> NodeToKdl(items[i]).Success?
    ensures r.Success? ==> |r.value| == |items|
    ensures r.Success? ==> forall i :: 0 <= i < |items| ==> NodeToKdl(items[i]) == Success(r.value[i])
    ensures r.Failure? ==> exists k ::
      && 0 <= k < |items|
      && NodeToKdl(items[k]) == Failure(r.error)
      && forall i :: 0 <= i < k ==> NodeToKdl(items[i]).Success?
    decreases items
  {
    if items == [] then Success([])
    else
      var node :- NodeToKdl(items[0]);
      var rest :- Nodes(items[1..]);
      Success([node] + rest)
  }

  /** The closure mapped over the root array: one node from one JSON object.
      The checks run in source order: name, arguments, properties,
      children, type. */
  function NodeToKdl(v: Json.Value): (r: Result<Kdl.Node, Error>)
    ensures r.Success? ==> v.Obj? && Json.Get(v, "name") == Some(Json.Str(r.value.name))
    ensures (Json.Get(v, "name").None? || !Json.Get(v, "name").value.Str?) ==> r == Failure(NameNotString)
    ensures r.Success? ==> (r.value.children.Some? <==> Json.Get(v, "children").Some?)
    decreases v, 0
  {
    var name :- match Json.Get(v, "name")
      case Some(Str(s)) => Success(s)
      case _ => Failure(NameNotString);
    var args :- NodeArguments(Json.Get(v, "arguments"));
    var props :- NodeProperties(Json.Get(v, "properties"));
    var children :- match Json.Get(v, "children")
      case None => Success(None)
      case Some(c) => (var doc :- JsonToKdl(c); Success(Some(doc)));
    var ty :- NodeType(Json.Get(v, "type"));
    Success(Kdl.Node(name, ty, args + props, children))
  }

  /** The loop that ends `json_to_kdl`: the per-element results, all
      computed first, are pushed into a new document one by one, and the
      first error returns at once. */
  method CollectDocument(results: seq<Result<Kdl.Node, Error>>) returns (r: Result<Kdl.Document, Error>)
    ensures r.Success? <==> forall i :: 0 <= i < |results| ==> results[i].Success?
    ensures r.Success? ==> |r.value.nodes| == |results|
    ensures r.Success? ==> forall i :: 0 <= i < |results| ==> results[i] == Success(r.value.nodes[i])
    ensures r.Failure? ==> exists k ::
      && 0 <= k < |results|
      && results[k] == Failure(r.error)
      && forall i :: 0 <= i < k ==> results[i].Success?
  {
    var nodes: seq<Kdl.Node> := [];
    var k := 0;
    while k < |results|
      invariant 0 <= k <= |results|
      invariant |nodes| == k
      invariant forall i :: 0 <= i < k ==> results[i] == Success(nodes[i])
    {
      match results[k]
      case Failure(e) =>
        return Failure(e);
      case Success(node) =>
        nodes := nodes + [node];
      k := k + 1;
    }
    return Success(Kdl.Document(nodes));
  }
}
