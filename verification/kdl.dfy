/** The KDL document tree the conversion builds (the `kdl` crate's
    `KdlDocument`, `KdlNode`, `KdlEntry` and `KdlValue`), without formatting. */
module Kdl {
  import opened Wrappers
  import opened Numbers

  /** A KDL literal. */
  datatype Value =
    | Null
    | Bool(b: bool)
    | Base10(i: I64)
    | Base10Float(f: F64)
    | String(s: string)

  /** An entry: a positional argument when `name` is None, a property
      `name=value` otherwise; `ty` is its `(annotation)`. */
  datatype Entry = Entry(name: Option<string>, ty: Option<string>, value: Value)

  /** A node: its `(annotation)`, its name, its entries in order, and its
      `{ ... }` block if one was set. */
  datatype Node = Node(name: string, ty: Option<string>, entries: seq<Entry>, children: Option<Document>)

  datatype Document = Document(nodes: seq<Node>)

  /** Arguments come before properties, and no property name repeats. */
  predicate EntriesCanonical(es: seq<Entry>) {
    forall i, j :: 0 <= i < j < |es| && es[i].name.Some? ==> es[j].name.Some? && es[i].name != es[j].name
  }

  /** Every node of the tree has canonical entries. */
  predicate NodeCanonical(n: Node) {
    && EntriesCanonical(n.entries)
    && (n.children.Some? ==> DocumentCanonical(n.children.value))
  }

  predicate DocumentCanonical(d: Document) {
    forall i :: 0 <= i < |d.nodes| ==> NodeCanonical(d.nodes[i])
  }

  /** Unnamed entries followed by named ones: every unnamed entry precedes
      every named one, and the unnamed ones are exactly the first part. */
  lemma PositionalFirst(args: seq<Entry>, props: seq<Entry>)
    requires forall k :: 0 <= k < |args| ==> args[k].name.None?
    requires forall k :: 0 <= k < |props| ==> props[k].name.Some?
    ensures forall i, j :: 0 <= i < j < |args + props| && (args + props)[i].name.Some? ==> (args + props)[j].name.Some?
    ensures forall i :: 0 <= i < |args| <==> 0 <= i < |args + props| && (args + props)[i].name.None?
  {
    var es := args + props;
    assert forall i :: |args| <= i < |es| ==> es[i] == props[i - |args|];
  }

  /** Unnamed entries followed by named ones with distinct names are canonical. */
  lemma CanonicalConcat(args: seq<Entry>, props: seq<Entry>)
    requires forall k :: 0 <= k < |args| ==> args[k].name.None?
    requires forall k :: 0 <= k < |props| ==> props[k].name.Some?
    requires forall a, b :: 0 <= a < b < |props| ==> props[a].name != props[b].name
    ensures EntriesCanonical(args + props)
  {
    var es := args + props;
    forall i, j | 0 <= i < j < |es| && es[i].name.Some?
      ensures es[j].name.Some? && es[i].name != es[j].name
    {
      assert i >= |args|;
      assert es[i] == props[i - |args|] && es[j] == props[j - |args|];
    }
  }
}
