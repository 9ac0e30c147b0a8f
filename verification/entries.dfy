/** Properties of `entry_to_kdl` and of the lenient filtering of
    `arguments` and `properties`. */
module EntryFacts {
  import opened Wrappers
  import Json
  import Kdl
  import Seqs
  import opened Convert

  /** Classification loses nothing: every KDL literal is the literal of
      exactly the JSON scalar `LiteralToJson` gives back. */
  lemma LiteralRoundTrip(k: Kdl.Value)
    ensures Literal(LiteralToJson(k)) == Success(k)
  {
  }

  /** The kind of a number follows its representation: a float-represented
      number is a float literal whatever its value, an integer-represented one
      is an integer literal exactly when it fits i64. */
  lemma NumberKinds(n: Json.Number)
    ensures n.Float? ==> Literal(Json.Num(n)) == Success(Kdl.Base10Float(n.f))
    ensures n.NegInt? ==> Literal(Json.Num(n)) == Success(Kdl.Base10(n.i))
    ensures n.PosInt? && n.u <= Numbers.I64_MAX ==> Literal(Json.Num(n)) == Success(Kdl.Base10(n.u))
    ensures n.PosInt? && n.u > Numbers.I64_MAX ==> Literal(Json.Num(n)) == Failure(IntOutOfRange)
  {
  }

  /** A bare scalar and the same scalar wrapped as `{"value": x}` give the
      same entry. */
  lemma BareEqualsWrapped(x: Json.Value)
    requires !x.Obj?
    ensures EntryToKdl(Json.Obj([("value", x)])) == EntryToKdl(x)
  {
  }

  /** Unwrapping happens once: a wrapper whose `value` is itself an object
      (another wrapper included) is not a literal. */
  lemma NestedWrapperFails(v: Json.Value)
    requires Json.Get(v, "value").Some? && Json.Get(v, "value").value.Obj?
    ensures EntryToKdl(v) == Failure(NotALiteral)
  {
  }

  /** A wrapper's fields other than `value` and `type` are ignored. */
  lemma ExtraFieldsIgnored(v: Json.Value, w: Json.Value)
    requires v.Obj? && w.Obj?
    requires Json.Get(v, "value") == Json.Get(w, "value") && Json.Get(v, "value").Some?
    requires Json.Get(v, "type") == Json.Get(w, "type")
    ensures EntryToKdl(v) == EntryToKdl(w)
  {
  }

  /** An entry is annotated exactly when the raw value is an object whose
      `type` is a string, and then with that string. */
  lemma EntryAnnotation(v: Json.Value, t: string)
    requires EntryToKdl(v).Success?
    ensures EntryToKdl(v).value.ty == Some(t) <==> v.Obj? && Json.Get(v, "type") == Some(Json.Str(t))
  {
  }

  /** The positional entries are the classifications of the `arguments`
      elements that classify, one each, in input order: `idx` lists the
      positions kept, and every position not listed failed to classify. */
  lemma ArgumentsFilter(vs: seq<Json.Value>) returns (idx: seq<nat>)
    ensures |idx| == |Arguments(vs)|
    ensures Seqs.Increasing(idx)
    ensures forall k :: 0 <= k < |idx| ==> idx[k] < |vs| && EntryToKdl(vs[idx[k]]) == Success(Arguments(vs)[k])
    ensures forall i :: 0 <= i < |vs| && EntryToKdl(vs[i]).Success? ==> i in idx
  {
    idx := Seqs.FilterMapKeeps(vs, ArgumentEntry);
    forall k | 0 <= k < |idx|
      ensures EntryToKdl(vs[idx[k]]) == Success(Arguments(vs)[k])
    {
      assert ArgumentEntry(vs[idx[k]]) == Some(Arguments(vs)[k]);
    }
    forall i | 0 <= i < |vs| && EntryToKdl(vs[i]).Success?
      ensures i in idx
    {
      assert ArgumentEntry(vs[i]).Some?;
    }
  }

  /** Positional entries carry no name. */
  lemma ArgumentsUnnamed(vs: seq<Json.Value>)
    ensures forall k :: 0 <= k < |Arguments(vs)| ==> Arguments(vs)[k].name.None?
  {
    var _ := ArgumentsFilter(vs);
  }

  /** When every argument classifies, none is dropped. */
  lemma ArgumentsAllClassify(vs: seq<Json.Value>)
    requires forall i :: 0 <= i < |vs| ==> EntryToKdl(vs[i]).Success?
    ensures |Arguments(vs)| == |vs|
    ensures forall i :: 0 <= i < |vs| ==> EntryToKdl(vs[i]) == Success(Arguments(vs)[i])
  {
    assert forall i :: 0 <= i < |vs| ==> ArgumentEntry(vs[i]).Some?;
    Seqs.FilterMapKeepsAll(vs, ArgumentEntry);
    assert forall i :: 0 <= i < |vs| ==> ArgumentEntry(vs[i]) == Some(Arguments(vs)[i]);
  }

  /** Dropping is local: the arguments of a concatenation are the
      concatenation of the arguments, so the relative order is kept. */
  lemma ArgumentsAppend(a: seq<Json.Value>, b: seq<Json.Value>)
    ensures Arguments(a + b) == Arguments(a) + Arguments(b)
  {
    Seqs.FilterMapAppend(a, b, ArgumentEntry);
  }

  /** The property entries are the classifications of the fields whose value
      classifies, each named by its key, in iteration order. */
  lemma PropertiesFilter(fields: seq<(string, Json.Value)>) returns (idx: seq<nat>)
    ensures |idx| == |Properties(fields)|
    ensures Seqs.Increasing(idx)
    ensures forall k :: 0 <= k < |idx| ==>
      && idx[k] < |fields|
      && EntryToKdl(fields[idx[k]].1).Success?
      && Properties(fields)[k] == EntryToKdl(fields[idx[k]].1).value.(name := Some(fields[idx[k]].0))
    ensures forall i :: 0 <= i < |fields| && EntryToKdl(fields[i].1).Success? ==> i in idx
  {
    idx := Seqs.FilterMapKeeps(fields, PropertyEntry);
    forall k | 0 <= k < |idx|
      ensures EntryToKdl(fields[idx[k]].1).Success?
      ensures Properties(fields)[k] == EntryToKdl(fields[idx[k]].1).value.(name := Some(fields[idx[k]].0))
    {
      assert PropertyEntry(fields[idx[k]]) == Some(Properties(fields)[k]);
    }
    forall i | 0 <= i < |fields| && EntryToKdl(fields[i].1).Success?
      ensures i in idx
    {
      assert PropertyEntry(fields[i]).Some?;
    }
  }

  /** When every property value classifies, none is dropped and each entry
      is named by its key. */
  lemma PropertiesAllClassify(fields: seq<(string, Json.Value)>)
    requires forall i :: 0 <= i < |fields| ==> EntryToKdl(fields[i].1).Success?
    ensures |Properties(fields)| == |fields|
    ensures forall i :: 0 <= i < |fields| ==>
      Properties(fields)[i] == EntryToKdl(fields[i].1).value.(name := Some(fields[i].0))
  {
    assert forall i :: 0 <= i < |fields| ==> PropertyEntry(fields[i]).Some?;
    Seqs.FilterMapKeepsAll(fields, PropertyEntry);
    assert forall i :: 0 <= i < |fields| ==> PropertyEntry(fields[i]) == Some(Properties(fields)[i]);
  }

  /** Every property entry is named. */
  lemma PropertiesNamed(fields: seq<(string, Json.Value)>)
    ensures forall k :: 0 <= k < |Properties(fields)| ==> Properties(fields)[k].name.Some?
  {
    var _ := PropertiesFilter(fields);
  }

  /** Distinct keys in the object give distinct property names, which is why
      appending a property is the same as `KdlNode::insert`. */
  lemma PropertyNamesDistinct(fields: seq<(string, Json.Value)>)
    requires Json.Distinct(Json.Keys(fields))
    ensures forall a, b :: 0 <= a < b < |Properties(fields)| ==> Properties(fields)[a].name != Properties(fields)[b].name
  {
    var idx := PropertiesFilter(fields);
    var ks := Json.Keys(fields);
    forall a, b | 0 <= a < b < |Properties(fields)|
      ensures Properties(fields)[a].name != Properties(fields)[b].name
    {
      assert idx[a] < idx[b];
      assert ks[idx[a]] != ks[idx[b]];
    }
  }
}
