/** The end-to-end example of the repository's `test_conversion`: the
    document tree behind its expected KDL text. */
module ConversionExample {
  import opened Wrappers
  import opened Numbers
  import Json
  import Kdl
  import opened Convert
  import EntryFacts
  import DocumentFacts

  /** 3.1415 as an IEEE-754 double. */
  const PI_ISH := F64(0x400921CAC083126F)

  function Bees(): Json.Value {
    Json.Obj([
      ("name", Json.Str("bees")),
      ("arguments", Json.Arr([
        Json.Bool(true),
        Json.Num(Json.PosInt(42)),
        Json.Obj([("value", Json.Num(Json.Float(PI_ISH))), ("type", Json.Str("my-neat-float"))]),
        Json.Null,
        Json.Str("how many eggs are you currently holding?")])),
      ("properties", Json.Obj([
        ("how many", Json.Str("uhhh like 40?")),
        ("state?", Json.Str("quite upset"))]))])
  }

  function Child(): Json.Value {
    Json.Obj([
      ("name", Json.Str("child")),
      ("properties", Json.Obj([
        ("age", Json.Obj([("value", Json.Num(Json.PosInt(3))), ("type", Json.Str("my-super-cool-int"))]))]))])
  }

  function ChildEater(): Json.Value {
    Json.Obj([
      ("name", Json.Str("child-eater")),
      ("arguments", Json.Arr([Json.Str(":^)")])),
      ("type", Json.Null)])
  }

  function Lemon(): Json.Value {
    Json.Obj([("name", Json.Str("lemon")), ("children", Json.Arr([Child(), ChildEater()]))])
  }

  function Ohno(): Json.Value {
    Json.Obj([("name", Json.Str("ohno")), ("type", Json.Str("ohnono"))])
  }

  function Input(): Json.Value {
    Json.Arr([Bees(), Lemon(), Ohno()])
  }

  /** `bees true 42 (my-neat-float)3.1415 null "how many eggs are you currently holding?" "how many"="uhhh like 40?" state?="quite upset"` */
  function BeesNode(): Kdl.Node {
    Kdl.Node("bees", None, [
      Kdl.Entry(None, None, Kdl.Bool(true)),
      Kdl.Entry(None, None, Kdl.Base10(42)),
      Kdl.Entry(None, Some("my-neat-float"), Kdl.Base10Float(PI_ISH)),
      Kdl.Entry(None, None, Kdl.Null),
      Kdl.Entry(None, None, Kdl.String("how many eggs are you currently holding?")),
      Kdl.Entry(Some("how many"), None, Kdl.String("uhhh like 40?")),
      Kdl.Entry(Some("state?"), None, Kdl.String("quite upset"))], None)
  }

  /** `lemon { child age=(my-super-cool-int)3; child-eater ":^)" }` */
  function LemonNode(): Kdl.Node {
    Kdl.Node("lemon", None, [], Some(Kdl.Document([
      Kdl.Node("child", None, [Kdl.Entry(Some("age"), Some("my-super-cool-int"), Kdl.Base10(3))], None),
      Kdl.Node("child-eater", None, [Kdl.Entry(None, None, Kdl.String(":^)"))], None)])))
  }

  /** `(ohnono)ohno` */
  function OhnoNode(): Kdl.Node {
    Kdl.Node("ohno", Some("ohnono"), [], None)
  }

  /** `{"value": 3.1415, "type": "my-neat-float"}` is an annotated float. */
  lemma AnnotatedFloat()
    ensures EntryToKdl(Json.Obj([("value", Json.Num(Json.Float(PI_ISH))), ("type", Json.Str("my-neat-float"))]))
      == Success(Kdl.Entry(None, Some("my-neat-float"), Kdl.Base10Float(PI_ISH)))
  {
    var wrapper := Json.Obj([("value", Json.Num(Json.Float(PI_ISH))), ("type", Json.Str("my-neat-float"))]);
    assert Json.Get(wrapper, "value") == Some(Json.Num(Json.Float(PI_ISH)));
    assert Json.Lookup(wrapper.fields[1..], "type") == Some(Json.Str("my-neat-float"));
    assert Json.Get(wrapper, "type") == Some(Json.Str("my-neat-float"));
  }

  lemma BeesArgumentEntries()
    ensures Json.Get(Bees(), "arguments").Some? && Json.Get(Bees(), "arguments").value.Arr?
    ensures |Json.Get(Bees(), "arguments").value.items| == 5
    ensures forall i :: 0 <= i < 5 ==>
      EntryToKdl(Json.Get(Bees(), "arguments").value.items[i]) == Success(BeesNode().entries[i])
  {
    var items := Json.Get(Bees(), "arguments").value.items;
    AnnotatedFloat();
    forall i | 0 <= i < 5
      ensures EntryToKdl(items[i]) == Success(BeesNode().entries[i])
    {
    }
  }

  lemma BeesArguments()
    ensures NodeArguments(Json.Get(Bees(), "arguments")) == Success(BeesNode().entries[..5])
  {
    var items := Json.Get(Bees(), "arguments").value.items;
    var expected := BeesNode().entries[..5];
    BeesArgumentEntries();
    EntryFacts.ArgumentsAllClassify(items);
    assert Arguments(items) == expected;
  }

  lemma BeesProperties()
    ensures NodeProperties(Json.Get(Bees(), "properties")) == Success(BeesNode().entries[5..])
  {
    var v := Bees();
    var fields := Json.Get(v, "properties").value.fields;
    var expected := BeesNode().entries[5..];
    forall i | 0 <= i < 2
      ensures EntryToKdl(fields[i].1).Success?
      ensures EntryToKdl(fields[i].1).value.(name := Some(fields[i].0)) == expected[i]
    {
    }
    EntryFacts.PropertiesAllClassify(fields);
    assert Properties(fields) == expected;
  }

  lemma BeesConverts()
    ensures NodeToKdl(Bees()) == Success(BeesNode())
  {
    var v := Bees();
    DocumentFacts.NodeParts(v);
    assert Json.Get(v, "name") == Some(Json.Str("bees"));
    BeesArguments();
    BeesProperties();
    assert Json.Get(v, "children") == None;
    assert Json.Get(v, "type") == None;
    assert NodeType(Json.Get(v, "type")) == Success(None);
    assert BeesNode().entries[..5] + BeesNode().entries[5..] == BeesNode().entries;
  }

  lemma ChildConverts()
    ensures NodeToKdl(Child()) == Success(LemonNode().children.value.nodes[0])
  {
    var v := Child();
    DocumentFacts.NodeParts(v);
    var none: seq<Kdl.Entry> := [];
    var fields := Json.Get(v, "properties").value.fields;
    var age := fields[0].1;
    assert Json.Get(age, "value") == Some(Json.Num(Json.PosInt(3)));
    assert Json.Get(age, "type") == Some(Json.Str("my-super-cool-int"));
    var expected := LemonNode().children.value.nodes[0].entries;
    assert EntryToKdl(age).value.(name := Some("age")) == expected[0];
    EntryFacts.PropertiesAllClassify(fields);
    assert Properties(fields) == expected;
    assert Json.Get(v, "name") == Some(Json.Str("child"));
    assert Json.Get(v, "arguments") == None;
    assert Json.Get(v, "children") == None;
    assert Json.Get(v, "type") == None;
    assert NodeArguments(Json.Get(v, "arguments")) == Success(none);
    assert NodeProperties(Json.Get(v, "properties")) == Success(expected);
    assert NodeType(Json.Get(v, "type")) == Success(None);
    assert none + expected == expected;
  }

  lemma ChildEaterConverts()
    ensures NodeToKdl(ChildEater()) == Success(LemonNode().children.value.nodes[1])
  {
    var v := ChildEater();
    DocumentFacts.NodeParts(v);
    var none: seq<Kdl.Entry> := [];
    var items := Json.Get(v, "arguments").value.items;
    var expected := LemonNode().children.value.nodes[1].entries;
    assert EntryToKdl(items[0]) == Success(expected[0]);
    EntryFacts.ArgumentsAllClassify(items);
    assert Arguments(items) == expected;
    assert Json.Get(v, "name") == Some(Json.Str("child-eater"));
    assert Json.Get(v, "properties") == None;
    assert Json.Get(v, "children") == None;
    assert Json.Get(v, "type") == Some(Json.Null);
    assert NodeArguments(Json.Get(v, "arguments")) == Success(expected);
    assert NodeProperties(Json.Get(v, "properties")) == Success(none);
    assert NodeType(Json.Get(v, "type")) == Success(None);
    assert expected + none == expected;
  }

  lemma LemonChildren()
    ensures JsonToKdl(Json.Arr([Child(), ChildEater()])) == Success(LemonNode().children.value)
  {
    var items := [Child(), ChildEater()];
    var nodes := LemonNode().children.value.nodes;
    forall i | 0 <= i < 2
      ensures NodeToKdl(items[i]) == Success(nodes[i])
    {
      if i == 0 {
        ChildConverts();
      } else {
        ChildEaterConverts();
      }
    }
    DocumentFacts.AllNodesConvert(items, nodes);
  }

  lemma LemonConverts()
    ensures NodeToKdl(Lemon()) == Success(LemonNode())
  {
    var v := Lemon();
    DocumentFacts.NodeParts(v);
    var none: seq<Kdl.Entry> := [];
    LemonChildren();
    assert Json.Get(v, "name") == Some(Json.Str("lemon"));
    assert Json.Get(v, "arguments") == None;
    assert Json.Get(v, "properties") == None;
    assert Json.Get(v, "children") == Some(Json.Arr([Child(), ChildEater()]));
    assert Json.Get(v, "type") == None;
    assert NodeArguments(Json.Get(v, "arguments")) == Success(none);
    assert NodeProperties(Json.Get(v, "properties")) == Success(none);
    assert NodeType(Json.Get(v, "type")) == Success(None);
    assert none + none == none;
  }

  lemma OhnoConverts()
    ensures NodeToKdl(Ohno()) == Success(OhnoNode())
  {
    var v := Ohno();
    DocumentFacts.NodeParts(v);
    var none: seq<Kdl.Entry> := [];
    assert Json.Get(v, "name") == Some(Json.Str("ohno"));
    assert Json.Get(v, "arguments") == None;
    assert Json.Get(v, "properties") == None;
    assert Json.Get(v, "children") == None;
    assert Json.Get(v, "type") == Some(Json.Str("ohnono"));
    assert NodeArguments(Json.Get(v, "arguments")) == Success(none);
    assert NodeProperties(Json.Get(v, "properties")) == Success(none);
    assert NodeType(Json.Get(v, "type")) == Success(Some("ohnono"));
    assert none + none == none;
  }

  function Expected(): Kdl.Document {
    Kdl.Document([BeesNode(), LemonNode(), OhnoNode()])
  }

  lemma InputNodesConvert()
    ensures forall i :: 0 <= i < 3 ==> NodeToKdl(Input().items[i]) == Success(Expected().nodes[i])
  {
    var items := Input().items;
    forall i | 0 <= i < 3
      ensures NodeToKdl(items[i]) == Success(Expected().nodes[i])
    {
      if i == 0 {
        BeesConverts();
      } else if i == 1 {
        LemonConverts();
      } else {
        OhnoConverts();
      }
    }
  }

  /** The conversion of the test input is the tree the expected text prints. */
  lemma TestConversion()
    ensures JsonToKdl(Input()) == Success(Expected())
  {
    InputNodesConvert();
    DocumentFacts.AllNodesConvert(Input().items, Expected().nodes);
  }
}
