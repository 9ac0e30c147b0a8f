/** Properties of `json_to_kdl`: shape checks, strict aggregation over
    nodes, entry order and the shape of the tree it builds. */
module DocumentFacts {
  import opened Wrappers
  import Json
  import Kdl
  import opened Convert
  import EntryFacts

  /** The elements of `arguments`, or none when it is absent. */
  function ArgumentsOf(v: Json.Value): seq<Json.Value> {
    match Json.Get(v, "arguments")
    case Some(Arr(items)) => items
    case _ => []
  }

  /** The fields of `properties`, or none when it is absent. */
  function PropertiesOf(v: Json.Value): seq<(string, Json.Value)> {
    match Json.Get(v, "properties")
    case Some(Obj(fields)) => fields
    case _ => []
  }

  /** The root must be an array; on success the document has one node per
      element, in order, each the conversion of its element; otherwise the
      error is that of the first element that fails. */
  lemma StrictAggregation(items: seq<Json.Value>)
    ensures JsonToKdl(Json.Arr(items)).Success? <==> forall i :: 0 <= i < |items| ==> NodeToKdl(items[i]).Success?
    ensures JsonToKdl(Json.Arr(items)).Success? ==>
      forall i :: 0 <= i < |items| ==> Success(JsonToKdl(Json.Arr(items)).value.nodes[i]) == NodeToKdl(items[i])
    ensures JsonToKdl(Json.Arr(items)).Failure? ==> exists k ::
      && 0 <= k < |items|
      && NodeToKdl(items[k]) == Failure(JsonToKdl(Json.Arr(items)).error)
      && forall i :: 0 <= i < k ==> NodeToKdl(items[i]).Success?
  {
  }

  /** Conversely, when every element converts, the document is exactly the
      converted elements, in order. */
  lemma AllNodesConvert(items: seq<Json.Value>, nodes: seq<Kdl.Node>)
    requires |nodes| == |items|
    requires forall i :: 0 <= i < |items| ==> NodeToKdl(items[i]) == Success(nodes[i])
    ensures JsonToKdl(Json.Arr(items)) == Success(Kdl.Document(nodes))
  {
    var r := Nodes(items);
    assert r.Success?;
    assert forall i :: 0 <= i < |items| ==> r.value[i] == nodes[i];
    assert r.value == nodes;
  }

  /** A node succeeds exactly when each of its parts does, and is then
      assembled from them: the name, arguments before properties, the child
      document if `children` is present, and the annotation. */
  lemma NodeParts(v: Json.Value)
    ensures NodeToKdl(v).Success? <==>
      && Json.Get(v, "name").Some? && Json.Get(v, "name").value.Str?
      && NodeArguments(Json.Get(v, "arguments")).Success?
      && NodeProperties(Json.Get(v, "properties")).Success?
      && (Json.Get(v, "children").Some? ==> JsonToKdl(Json.Get(v, "children").value).Success?)
      && NodeType(Json.Get(v, "type")).Success?
    ensures NodeToKdl(v).Success? ==>
      && NodeToKdl(v).value.name == Json.Get(v, "name").value.s
      && NodeToKdl(v).value.entries ==
         NodeArguments(Json.Get(v, "arguments")).value + NodeProperties(Json.Get(v, "properties")).value
      && NodeToKdl(v).value.children ==
         (if Json.Get(v, "children").Some? then Some(JsonToKdl(Json.Get(v, "children").value).value) else None)
      && NodeToKdl(v).value.ty == NodeType(Json.Get(v, "type")).value
  {
  }

  /** Entry failures never fail a node: when `arguments` is absent or an
      array and `properties` is absent or an object, the node succeeds
      exactly when its name, children and type do, whatever the elements. */
  lemma EntryFailuresKeepNode(v: Json.Value)
    requires Json.Get(v, "arguments").None? || Json.Get(v, "arguments").value.Arr?
    requires Json.Get(v, "properties").None? || Json.Get(v, "properties").value.Obj?
    ensures NodeToKdl(v).Success? <==>
      && Json.Get(v, "name").Some? && Json.Get(v, "name").value.Str?
      && (Json.Get(v, "children").Some? ==> JsonToKdl(Json.Get(v, "children").value).Success?)
      && NodeType(Json.Get(v, "type")).Success?
  {
    NodeParts(v);
  }

  /** Hence two such nodes that agree on `name`, `children` and `type` but
      not on their entries succeed or fail together, with the same error. */
  lemma EntriesDoNotDecideFailure(v: Json.Value, w: Json.Value)
    requires Json.Get(v, "arguments").None? || Json.Get(v, "arguments").value.Arr?
    requires Json.Get(w, "arguments").None? || Json.Get(w, "arguments").value.Arr?
    requires Json.Get(v, "properties").None? || Json.Get(v, "properties").value.Obj?
    requires Json.Get(w, "properties").None? || Json.Get(w, "properties").value.Obj?
    requires Json.Get(v, "name") == Json.Get(w, "name")
    requires Json.Get(v, "children") == Json.Get(w, "children")
    requires Json.Get(v, "type") == Json.Get(w, "type")
    ensures NodeToKdl(v).Success? <==> NodeToKdl(w).Success?
    ensures NodeToKdl(v).Failure? ==> NodeToKdl(v).error == NodeToKdl(w).error
  {
    EntryFailuresKeepNode(v);
    EntryFailuresKeepNode(w);
    if Json.Get(v, "name").Some? && Json.Get(v, "name").value.Str? {
      match Json.Get(v, "children")
      case Some(c) =>
        ChildrenStrict(v, c);
        ChildrenStrict(w, c);
        if JsonToKdl(c).Success? {
          FieldStrictness(v);
          FieldStrictness(w);
        }
      case None =>
        FieldStrictness(v);
        FieldStrictness(w);
    }
  }

  /** A successful node holds the classifiable arguments, then the
      classifiable properties: every positional entry precedes every
      property, and there are as many positional entries as classifiable
      arguments. */
  lemma NodeEntries(v: Json.Value)
    requires NodeToKdl(v).Success?
    ensures NodeToKdl(v).value.entries == Arguments(ArgumentsOf(v)) + Properties(PropertiesOf(v))
    ensures forall i, j :: 0 <= i < j < |NodeToKdl(v).value.entries| && NodeToKdl(v).value.entries[i].name.Some? ==>
      NodeToKdl(v).value.entries[j].name.Some?
    ensures forall i :: 0 <= i < |Arguments(ArgumentsOf(v))| <==>
      0 <= i < |NodeToKdl(v).value.entries| && NodeToKdl(v).value.entries[i].name.None?
  {
    NodeParts(v);
    var args := Arguments(ArgumentsOf(v));
    var props := Properties(PropertiesOf(v));
    assert NodeArguments(Json.Get(v, "arguments")).value == args;
    assert NodeProperties(Json.Get(v, "properties")).value == props;
    EntryFacts.ArgumentsUnnamed(ArgumentsOf(v));
    EntryFacts.PropertiesNamed(PropertiesOf(v));
    Kdl.PositionalFirst(args, props);
  }

  /** Each optional field, when present with the wrong shape, fails the
      node, in the order the fields are checked. `null` is a wrong shape for
      `arguments`, `properties` and `children`, but not for `type`. */
  lemma FieldStrictness(v: Json.Value)
    requires Json.Get(v, "name").Some? && Json.Get(v, "name").value.Str?
    ensures Json.Get(v, "arguments").Some? && !Json.Get(v, "arguments").value.Arr? ==>
      NodeToKdl(v) == Failure(ArgumentsNotArray)
    ensures NodeArguments(Json.Get(v, "arguments")).Success? && Json.Get(v, "properties").Some? && !Json.Get(v, "properties").value.Obj? ==>
      NodeToKdl(v) == Failure(PropertiesNotObject)
    ensures
      (&& NodeArguments(Json.Get(v, "arguments")).Success? && NodeProperties(Json.Get(v, "properties")).Success?
       && Json.Get(v, "children").Some? && !Json.Get(v, "children").value.Arr?)
      ==> NodeToKdl(v) == Failure(RootNotArray)
    ensures
      (&& NodeArguments(Json.Get(v, "arguments")).Success? && NodeProperties(Json.Get(v, "properties")).Success?
       && (Json.Get(v, "children").None? || JsonToKdl(Json.Get(v, "children").value).Success?)
       && Json.Get(v, "type").Some? && !Json.Get(v, "type").value.Null? && !Json.Get(v, "type").value.Str?)
      ==> NodeToKdl(v) == Failure(TypeNotString)
  {
  }

  /** `children` is converted strictly: a child document that fails fails
      its parent with the same error, and one that succeeds becomes the
      parent's block. */
  lemma ChildrenStrict(v: Json.Value, c: Json.Value)
    requires Json.Get(v, "name").Some? && Json.Get(v, "name").value.Str?
    requires NodeArguments(Json.Get(v, "arguments")).Success? && NodeProperties(Json.Get(v, "properties")).Success?
    requires Json.Get(v, "children") == Some(c)
    ensures JsonToKdl(c).Failure? ==> NodeToKdl(v) == Failure(JsonToKdl(c).error)
    ensures NodeToKdl(v).Success? ==> NodeToKdl(v).value.children == Some(JsonToKdl(c).value)
  {
  }

  /** A node that fails anywhere in the array fails the whole document. */
  lemma FailingNodeAbortsDocument(items: seq<Json.Value>, i: nat)
    requires i < |items| && NodeToKdl(items[i]).Failure?
    ensures JsonToKdl(Json.Arr(items)).Failure?
  {
  }

  /** The node conversion reads only `name`, `arguments`, `properties`,
      `children` and `type`; with the first four equal, `type: null` and no
      `type` at all give the same node. */
  lemma NullTypeIsAbsent(v: Json.Value, w: Json.Value)
    requires v.Obj? && w.Obj?
    requires Json.Get(v, "name") == Json.Get(w, "name")
    requires Json.Get(v, "arguments") == Json.Get(w, "arguments")
    requires Json.Get(v, "properties") == Json.Get(w, "properties")
    requires Json.Get(v, "children") == Json.Get(w, "children")
    requires Json.Get(v, "type") == Some(Json.Null) && Json.Get(w, "type").None?
    ensures NodeToKdl(v) == NodeToKdl(w)
  {
    assert NodeArguments(Json.Get(v, "arguments")) == NodeArguments(Json.Get(w, "arguments"));
    assert NodeProperties(Json.Get(v, "properties")) == NodeProperties(Json.Get(w, "properties"));
    assert NodeType(Json.Get(v, "type")) == NodeType(Json.Get(w, "type")) == Success(None);
    match Json.Get(v, "children")
    case None =>
    case Some(c) =>
      var d := JsonToKdl(c);
  }

  /** Appending `"type": null` to an object without a `type` field leaves
      its node unchanged. */
  lemma AppendNullType(fields: seq<(string, Json.Value)>)
    requires Json.Lookup(fields, "type").None?
    ensures NodeToKdl(Json.Obj(fields + [("type", Json.Null)])) == NodeToKdl(Json.Obj(fields))
  {
    var v := Json.Obj(fields + [("type", Json.Null)]);
    var w := Json.Obj(fields);
    Json.LookupAppend(fields, [("type", Json.Null)], "name");
    Json.LookupAppend(fields, [("type", Json.Null)], "arguments");
    Json.LookupAppend(fields, [("type", Json.Null)], "properties");
    Json.LookupAppend(fields, [("type", Json.Null)], "children");
    Json.LookupAppend(fields, [("type", Json.Null)], "type");
    NullTypeIsAbsent(v, w);
  }

  /** From well-formed JSON (no repeated object keys) the conversion builds a
      canonical tree: in every node, at every depth, arguments precede
      properties and no property name repeats. */
  lemma {:induction false} DocumentCanonical(j: Json.Value)
    requires Json.WellFormed(j) && JsonToKdl(j).Success?
    ensures Kdl.DocumentCanonical(JsonToKdl(j).value)
    decreases j, 1
  {
    NodesCanonical(j.items);
  }

  /** The nodes of an array of well-formed elements are canonical. */
  lemma {:induction false} NodesCanonical(items: seq<Json.Value>)
    requires forall i :: 0 <= i < |items| ==> Json.WellFormed(items[i])
    requires Nodes(items).Success?
    ensures forall i :: 0 <= i < |items| ==> Kdl.NodeCanonical(Nodes(items).value[i])
    decreases items
  {
    forall i | 0 <= i < |items|
      ensures Kdl.NodeCanonical(Nodes(items).value[i])
    {
      NodeCanonical(items[i]);
    }
  }

  /** A node converted from a well-formed object is canonical, and so is
      every node of its block. */
  lemma {:induction false} NodeCanonical(v: Json.Value)
    requires Json.WellFormed(v) && NodeToKdl(v).Success?
    ensures Kdl.NodeCanonical(NodeToKdl(v).value)
    decreases v, 0
  {
    NodeParts(v);
    NodeEntries(v);
    if Json.Get(v, "properties").Some? {
      Json.GetWellFormed(v, "properties");
    }
    EntryFacts.PropertyNamesDistinct(PropertiesOf(v));
    EntryFacts.ArgumentsUnnamed(ArgumentsOf(v));
    EntryFacts.PropertiesNamed(PropertiesOf(v));
    Kdl.CanonicalConcat(Arguments(ArgumentsOf(v)), Properties(PropertiesOf(v)));
    if Json.Get(v, "children").Some? {
      var c := Json.Get(v, "children").value;
      Json.GetWellFormed(v, "children");
      DocumentCanonical(c);
    }
  }

  /** The order of `json_to_kdl`: every element is converted first
      (`collect()` into a vector of results), then the push loop keeps the
      nodes or stops at the first error. This gives the same result as the
      short-circuiting `JsonToKdl`. */
  method TwoPhaseJsonToKdl(items: seq<Json.Value>) returns (r: Result<Kdl.Document, Error>)
    ensures r == JsonToKdl(Json.Arr(items))
  {
    var results := seq(|items|, i requires 0 <= i < |items| => NodeToKdl(items[i]));
    r := CollectDocument(results);
    StrictAggregation(items);
    var expected := JsonToKdl(Json.Arr(items));
    if r.Success? {
      AllNodesConvert(items, r.value.nodes);
    } else {
      var k :| 0 <= k < |results| && results[k] == Failure(r.error)
        && forall i :: 0 <= i < k ==> results[i].Success?;
      assert expected.Failure?;
      var k' :| 0 <= k' < |items| && NodeToKdl(items[k']) == Failure(expected.error)
        && forall i :: 0 <= i < k' ==> NodeToKdl(items[i]).Success?;
      assert forall i :: 0 <= i < |items| ==> results[i] == NodeToKdl(items[i]);
      assert !(k < k') && !(k' < k);
    }
  }
}
