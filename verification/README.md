# json2kdl in Dafny

A model of the JSON-to-KDL conversion of `json2kdl`. The input is a JSON
array of node descriptions. Each description is an object with a `name`,
optional `arguments`, `properties`, `children` and `type`. The output is a
KDL document with one node per description.

The model starts from an already parsed JSON tree and stops at the KDL tree.
Its two central functions are those of `src/main.rs`:

- `Convert.EntryToKdl` (`entry_to_kdl`) turns one JSON value into a KDL entry.
  It unwraps one level of `{"value": ..., "type": ...}`, classifies the value as a
  literal and annotates it with `type` when that is a string.
- `Convert.JsonToKdl` (`json_to_kdl`) builds a document. Node conversion is
  `Convert.NodeToKdl`. It is strict for the root shape, `name`, the shape of
  `arguments`, `properties` and `type`, and for `children`. It is lenient per
  entry: an argument or property that does not classify is dropped.

Modules:

- `Wrappers`: `Option` and `Result`.
- `Numbers`: `U64`, `I64` and an opaque `F64` (an IEEE-754 bit pattern).
- `Json`: serde_json's `Value`, with numbers kept as serde_json represents
  them (`PosInt`, `NegInt`, `Float`). `Get` is `Value::get`, and `WellFormed`
  means no repeated object keys.
- `Kdl`: the KDL tree (`Value`, `Entry`, `Node`, `Document`) and the
  canonical-entries predicates.
- `Seqs`: `filter_map` on sequences and what it keeps.
- `Convert`: the conversion itself.
- `EntryFacts`, `DocumentFacts`: the properties of the conversion.
- `ConversionExample`: the repository's end-to-end test as a lemma.

Behaviour of the code that is easy to miss:

- A node name may be the empty string. The code only requires `name` to be
  a string.
- A `children` value that is not an array fails with the root error
  (`RootNotArray`), because the code reuses `json_to_kdl` for it.
- An integer is out of range only when it is above i64::MAX. serde_json
  stores negative integers as i64, and a parsed float is always finite.
- `type` is read from any object given to `entry_to_kdl`, not only from
  wrappers with a `value` field. Without `value` the object fails to
  classify anyway, so this changes no result.

## Model

| member | source | states |
|---|---|---|
| Convert.JsonToKdl | src/main.rs:30-33 | A root that is not an array fails with `RootNotArray`. A document that succeeds has exactly one node per array element. |
| Convert.Nodes | src/main.rs:31-35 | The nodes succeed iff every element converts. They are then the converted elements, in order. On failure the error is that of the first failing element, and every earlier element converted. |
| Convert.CollectDocument | src/main.rs:89-95 | The push loop over the per-element results: success iff all results succeed, with the nodes in order. Otherwise the first error in array order. |
| DocumentFacts.TwoPhaseJsonToKdl | src/main.rs:31-95 | Converting every element first and then running the push loop, as the source does, gives exactly `Convert.JsonToKdl` of the array, in both the success and the error case. |
| DocumentFacts.StrictAggregation | src/main.rs:31-95 | All-or-nothing at the document level: success iff every element converts, with the nodes in order. Otherwise the error of the first failing element. |
| DocumentFacts.AllNodesConvert | src/main.rs:91-95 | Conversely, if every element converts, the document is exactly those nodes, in order. |
| DocumentFacts.FailingNodeAbortsDocument | src/main.rs:91-92 | One failing node anywhere fails the whole document. No partial document is produced. |
| Convert.NodeToKdl | src/main.rs:36-41 | A successful node comes from an object, and its name is exactly the string in `name`. A missing or non-string `name` (including a non-object element) fails with `NameNotString`. A successful node has a block iff `children` is present. |
| DocumentFacts.NodeParts | src/main.rs:36-85 | A node succeeds iff its name, arguments, properties, children and type each succeed. It is then assembled from them, with arguments before properties. |
| DocumentFacts.NodeEntries | src/main.rs:43-70 | A node's entries are the kept arguments followed by the kept properties. Every positional entry precedes every property. The positional entries are exactly the first as many as there are classifiable arguments. |
| DocumentFacts.EntryFailuresKeepNode | src/main.rs:43-70 | When `arguments` is absent or an array and `properties` is absent or an object, the node succeeds iff its name, children and type do. No argument or property that fails to classify can fail it. |
| DocumentFacts.EntriesDoNotDecideFailure | src/main.rs:43-83 | Two such nodes that agree on `name`, `children` and `type` succeed or fail together, with the same error, whatever their entries. |
| DocumentFacts.FieldStrictness | src/main.rs:43-83 | In checking order: `arguments` that is not an array, `properties` that is not an object, `children` that is not an array, and `type` that is neither null nor a string each fail the node with their own error. `null` counts as a wrong shape for the first three. |
| Convert.NodeArguments | src/main.rs:43-54 | An absent `arguments` gives no entries. A present one must be an array, and otherwise fails with `ArgumentsNotArray`. |
| Convert.NodeProperties | src/main.rs:56-70 | An absent `properties` gives no entries. A present one must be an object, and otherwise fails with `PropertiesNotObject`. |
| Convert.NodeType | src/main.rs:76-83 | An absent or null `type` gives no annotation. A string gives that annotation. Anything else fails with `TypeNotString`. |
| DocumentFacts.ChildrenStrict | src/main.rs:72-74 | A failing child document fails its parent with the same error. A succeeding one becomes the parent's block. |
| DocumentFacts.NullTypeIsAbsent | src/main.rs:76-83 | Two objects that agree on `name`, `arguments`, `properties` and `children` give the same node when one has `type: null` and the other has no `type`. |
| DocumentFacts.AppendNullType | src/main.rs:76-83 | Adding `"type": null` to an object without `type` does not change its node. |
| DocumentFacts.NodeCanonical | src/main.rs:56-74 | From JSON without repeated keys, a node and every node in its block, at every depth, have their arguments before their properties and no repeated property name. So appending properties agrees with `KdlNode::insert`. |
| Convert.Literal | src/main.rs:105-121 | A value classifies iff it is null, a bool, a string, or a number that is not an integer above i64::MAX. Arrays and objects fail with `NotALiteral`, and too-large integers fail with `IntOutOfRange`. The literal maps back to the value it came from. |
| Convert.EntryToKdl | src/main.rs:99-127 | An entry succeeds iff its one-level-unwrapped value classifies. It is unnamed, its literal maps back to the unwrapped value, and it is annotated iff the raw value is an object whose `type` is a string. |
| EntryFacts.LiteralRoundTrip | src/main.rs:105-121 | Every literal of `Kdl.Value` is the classification of the JSON scalar it maps back to. Together with `Convert.Literal` this makes classification a bijection onto scalars within range. |
| EntryFacts.NumberKinds | src/main.rs:108-118 | A float-represented number gives a float literal, whatever its value. An integer gives an i64 literal if it fits, and `IntOutOfRange` otherwise. |
| EntryFacts.BareEqualsWrapped | src/main.rs:100-104 | A bare non-object `x` and `{"value": x}` give the same entry. |
| EntryFacts.NestedWrapperFails | src/main.rs:104-120 | Unwrapping happens once: a `value` that is itself an object fails with `NotALiteral`. |
| EntryFacts.ExtraFieldsIgnored | src/main.rs:100-104 | Two wrappers with the same `value` and `type` give the same entry, whatever their other fields. |
| EntryFacts.EntryAnnotation | src/main.rs:100-125 | A successful entry carries annotation `t` iff the raw value is an object whose `type` is the string `t`. |
| EntryFacts.ArgumentsFilter | src/main.rs:44-49 | The positional entries are the classifications of exactly the arguments that classify, one each, in input order. Every element left out failed to classify. |
| EntryFacts.ArgumentsAllClassify | src/main.rs:44-49 | When every argument classifies, none is dropped, and entry `i` is the classification of argument `i`. |
| EntryFacts.ArgumentsAppend | src/main.rs:44-49 | Dropping is local: the entries of `a + b` are those of `a` followed by those of `b`. |
| EntryFacts.ArgumentsUnnamed | src/main.rs:51-53 | Positional entries carry no name. |
| EntryFacts.PropertiesFilter | src/main.rs:57-65 | The property entries are the classifications of exactly the fields whose value classifies, each named by its key, in iteration order. Every field left out failed to classify. |
| EntryFacts.PropertiesAllClassify | src/main.rs:57-65 | When every property value classifies, none is dropped, and entry `i` is field `i`'s classification named by its key. |
| EntryFacts.PropertiesNamed | src/main.rs:67-69 | Every property entry is named. |
| EntryFacts.PropertyNamesDistinct | src/main.rs:67-69 | Distinct keys give distinct property names. |
| Seqs.FilterMapKeeps | src/main.rs:48 | `filter_map` keeps exactly the elements mapped to `Some`, each once and in order. The witnesses are their positions. |
| ConversionExample.TestConversion | src/main.rs:129-183 | The test input converts to the tree its expected text prints: `bees` with five arguments then two properties, `lemon` with a block of `child` and `child-eater`, and `(ohnono)ohno`. |

## Left out

- `main` (src/main.rs:6-28) is left out: reading the command line, reading and writing files, and parsing JSON text are I/O. The model starts from a parsed `Json.Value`.
- KDL text output (`to_string`) lives in the `kdl` crate, which is not part of this model. That covers quoting, identifier escaping, indentation and float formatting. The model stops at the `Kdl.Document` tree. `ConversionExample.TestConversion` compares trees, not text. Determinism holds trivially because every function is pure.
- Float payloads are opaque bit patterns that are carried through unchanged. `as_f64` on a float-represented number always succeeds, so the error branch at src/main.rs:110-112 cannot be taken and has no error value.
- Diagnostic messages (`miette`) are modelled as the enumerated `Convert.Error` and `Convert.EntryError`.
- serde_json's `Map` is modelled as a sequence of fields in iteration order, and `Json.Get` takes the first match. Its key order depends on Cargo features that are not part of this model. Real maps never repeat keys (`Json.WellFormed`).
- `KdlNode::insert` replaces an existing property with the same name. The model appends instead. This is the same whenever keys are distinct, as `DocumentFacts.NodeCanonical` shows.
- serde_json's `arbitrary_precision` number representation is not modelled.
- `Kdl.Value` has only the five literal kinds the conversion can produce (null, bool, base-10 integer, base-10 float, string). The kdl crate's `RawString`, `Base2`, `Base8` and `Base16` are not modelled, because `entry_to_kdl` never builds them.
- KDL identifier validity for node names and annotations is not checked. The source passes the strings through as they are.
