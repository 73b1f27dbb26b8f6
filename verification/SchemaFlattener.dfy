/** Making a JSON schema self-contained: references inlined, nullable unions collapsed. */
module SchemaFlattener {
  import opened Wrappers

  datatype Json =
    | Null
    | Text(text: string)
    | Literal(literal: string)
    | List(items: seq<Json>)
    | Dict(fields: map<string, Json>)

  const EMPTY := Dict(map[])
  const NULL_TYPE := Dict(map["type" := Text("null")])
  const ANY_OBJECT := Dict(map["type" := Text("object")])

  /** The part of a reference after its last slash. */
  function LastPart(reference: string): string {
    if reference == "" then ""
    else if '/' in reference[1..] || reference[0] == '/' then LastPart(reference[1..])
    else reference
  }

  /** str() of a reference; only texts name definitions. */
  function RefName(reference: Json): string {
    match reference
    case Text(text) => LastPart(text)
    case Literal(literal) => LastPart(literal)
    case _ => ""
  }

  type Definitions = map<string, Json>

  predicate IsNullType(option: Json) {
    option == NULL_TYPE
  }

  function RealOptions(options: seq<Json>): seq<Json> {
    if options == [] then [] else
    (if IsNullType(options[0]) then [] else [options[0]]) + RealOptions(options[1..])
  }

  /** A union with one real option becomes that option, the other keys kept. */
  function Collapsed(out: map<string, Json>): Option<Json> {
    if "anyOf" in out && out["anyOf"].List? && |RealOptions(out["anyOf"].items)| == 1 then
      var option := RealOptions(out["anyOf"].items)[0];
      if option.Dict? then Some(Dict(option.fields + (out - {"anyOf"}))) else None
    else Some(Dict(out))
  }

  /** `walk`: None stands for the exception raised on a node of the wrong shape.
      It ends because a reference uses up a definition that is not expanding yet. */
  function Walk(defs: Definitions, node: Json, expanding: set<string>): Option<Json>
    decreases defs.Keys - expanding, if node == EMPTY then 0 else 1, node, 2
  {
    match node
    case List(items) =>
      if exists i | 0 <= i < |items| :: Walk(defs, items[i], expanding).None? then None
      else Some(List(seq(|items|, i requires 0 <= i < |items| => Walk(defs, items[i], expanding).value)))
    case Dict(fields) =>
      if "$ref" in fields then
        var name := RefName(fields["$ref"]);
        if name in expanding then Some(ANY_OBJECT)
        else if name in defs then
          assert name in defs.Keys - expanding && name !in defs.Keys - (expanding + {name});
          Walk(defs, defs[name], expanding + {name})
        else Walk(defs, EMPTY, expanding + {name})
      else if fields == map[] then Some(EMPTY)
      else
        var out := WalkFields(defs, node, expanding);
        if out.None? then None else Collapsed(out.value)
    case _ => Some(node)
  }

  function WalkFields(defs: Definitions, node: Json, expanding: set<string>): Option<map<string, Json>>
    requires node.Dict? && node != EMPTY
    decreases defs.Keys - expanding, 1, node, 1
  {
    var fields := node.fields;
    if exists key | key in fields && Kept(key) :: WalkField(defs, node, key, expanding).None? then None
    else Some(map key | key in fields && Kept(key) :: WalkField(defs, node, key, expanding).value)
  }

  predicate Kept(key: string) {
    key != "$defs" && key != "title"
  }

  /** One entry of a node. The values under "properties" are schemas, but its
      keys are field names. */
  function WalkField(defs: Definitions, node: Json, key: string, expanding: set<string>): Option<Json>
    requires node.Dict? && node != EMPTY && key in node.fields
    decreases defs.Keys - expanding, 1, node, 0
  {
    var value := node.fields[key];
    if key == "properties" then
      if !value.Dict? || exists name | name in value.fields :: Walk(defs, value.fields[name], expanding).None? then None
      else Some(Dict(map name | name in value.fields :: Walk(defs, value.fields[name], expanding).value))
    else Walk(defs, value, expanding)
  }

  function Flatten(schema: map<string, Json>): Option<Json> {
    if "$defs" !in schema then Walk(map[], Dict(schema), {})
    else if schema["$defs"].Dict? then Walk(schema["$defs"].fields, Dict(schema), {})
    else None
  }

  // --- what comes out -----------------------------------------------------------------------

  /** No reference, definition or title in any schema position, and no union
      that still has exactly one real option. */
  predicate Flat(node: Json)
    decreases node, 0
  {
    match node
    case List(items) => forall i | 0 <= i < |items| :: Flat(items[i])
    case Dict(fields) =>
      && "$ref" !in fields && "$defs" !in fields && "title" !in fields
      && ("anyOf" in fields && fields["anyOf"].List? ==> |RealOptions(fields["anyOf"].items)| != 1)
      && (forall key | key in fields :: FlatField(fields[key], key))
    case _ => true
  }

  predicate FlatField(value: Json, key: string)
    decreases value, 1
  {
    if key == "properties" then
      value.Dict? && forall name | name in value.fields :: Flat(value.fields[name])
    else Flat(value)
  }

  lemma {:induction false} RealOptionsMembers(options: seq<Json>, option: Json)
    ensures option in RealOptions(options) <==> option in options && !IsNullType(option)
  {
    if options != [] {
      RealOptionsMembers(options[1..], option);
      assert options == [options[0]] + options[1..];
    }
  }

  lemma CollapsedIsFlat(out: map<string, Json>)
    requires forall key | key in out :: Kept(key) && key != "$ref" && FlatField(out[key], key)
    ensures Collapsed(out).Some? ==> Flat(Collapsed(out).value)
  {
    if "anyOf" in out && out["anyOf"].List? && |RealOptions(out["anyOf"].items)| == 1 {
      var option := RealOptions(out["anyOf"].items)[0];
      RealOptionsMembers(out["anyOf"].items, option);
      assert FlatField(out["anyOf"], "anyOf");
      assert Flat(option);
    }
  }

  /** Flattening ends on every schema, mutually recursive definitions included,
      and its result is flat. */
  lemma {:induction false} WalkIsFlat(defs: Definitions, node: Json, expanding: set<string>)
    requires Walk(defs, node, expanding).Some?
    ensures Flat(Walk(defs, node, expanding).value)
    decreases defs.Keys - expanding, if node == EMPTY then 0 else 1, node, 2
  {
    match node
    case List(items) =>
      forall i | 0 <= i < |items| ensures Flat(Walk(defs, items[i], expanding).value) {
        WalkIsFlat(defs, items[i], expanding);
      }
    case Dict(fields) =>
      if "$ref" in fields {
        var name := RefName(fields["$ref"]);
        if name !in expanding {
          if name in defs {
            assert name in defs.Keys - expanding && name !in defs.Keys - (expanding + {name});
            WalkIsFlat(defs, defs[name], expanding + {name});
          } else {
            WalkIsFlat(defs, EMPTY, expanding + {name});
          }
        }
      } else if fields != map[] {
        var out := WalkFields(defs, node, expanding).value;
        forall key | key in out ensures FlatField(out[key], key) {
          FieldIsFlat(defs, node, key, expanding);
        }
        CollapsedIsFlat(out);
      }
    case _ =>
  }

  lemma {:induction false} FieldIsFlat(defs: Definitions, node: Json, key: string, expanding: set<string>)
    requires node.Dict? && node != EMPTY && key in node.fields
    requires WalkField(defs, node, key, expanding).Some?
    ensures FlatField(WalkField(defs, node, key, expanding).value, key)
    decreases defs.Keys - expanding, 1, node, 1
  {
    var value := node.fields[key];
    if key == "properties" {
      forall name | name in value.fields ensures Flat(Walk(defs, value.fields[name], expanding).value) {
        WalkIsFlat(defs, value.fields[name], expanding);
      }
    } else {
      WalkIsFlat(defs, value, expanding);
    }
  }

  /** The flattened schema has exactly the property names of the schema. */
  lemma PropertyNamesKept(defs: Definitions, node: Json, expanding: set<string>)
    requires node.Dict? && "$ref" !in node.fields && "properties" in node.fields
    requires Walk(defs, node, expanding).Some?
    ensures node.fields["properties"].Dict?
    ensures var flat := Walk(defs, node, expanding).value;
      && flat.Dict? && "properties" in flat.fields && flat.fields["properties"].Dict?
      && flat.fields["properties"].fields.Keys == node.fields["properties"].fields.Keys
  {
    assert Kept("properties");
    assert WalkField(defs, node, "properties", expanding).Some?;
  }

  /** A flat schema is left as it is. */
  lemma {:induction false} FlatIsFixed(defs: Definitions, node: Json, expanding: set<string>)
    requires Flat(node)
    ensures Walk(defs, node, expanding) == Some(node)
    decreases node, 1
  {
    match node
    case List(items) =>
      forall i | 0 <= i < |items| ensures Walk(defs, items[i], expanding) == Some(items[i]) {
        FlatIsFixed(defs, items[i], expanding);
      }
      var out := Walk(defs, node, expanding);
      assert out.Some? && out.value.items == items;
    case Dict(fields) =>
      if fields != map[] {
        forall key | key in fields ensures WalkField(defs, node, key, expanding) == Some(fields[key]) {
          FieldIsFixed(defs, node, key, expanding);
        }
        var out := WalkFields(defs, node, expanding);
        assert out.Some? && out.value == fields;
      }
    case _ =>
  }

  lemma {:induction false} FieldIsFixed(defs: Definitions, node: Json, key: string, expanding: set<string>)
    requires node.Dict? && node != EMPTY && key in node.fields && FlatField(node.fields[key], key)
    ensures WalkField(defs, node, key, expanding) == Some(node.fields[key])
    decreases node, 0
  {
    var value := node.fields[key];
    if key == "properties" {
      forall name | name in value.fields ensures Walk(defs, value.fields[name], expanding) == Some(value.fields[name]) {
        FlatIsFixed(defs, value.fields[name], expanding);
      }
      var out := WalkField(defs, node, key, expanding);
      assert out.Some? && out.value.fields == value.fields;
    } else {
      FlatIsFixed(defs, value, expanding);
    }
  }

  /** The whole operation: flat, complete, and done in one go. */
  lemma FlattenIsFlat(schema: map<string, Json>)
    requires Flatten(schema).Some?
    ensures Flat(Flatten(schema).value)
    ensures Flatten(schema).value.Dict? ==> Flatten(Flatten(schema).value.fields) == Flatten(schema)
  {
    var defs := if "$defs" in schema then schema["$defs"].fields else map[];
    WalkIsFlat(defs, Dict(schema), {});
    if Flatten(schema).value.Dict? {
      FlatIsFixed(map[], Flatten(schema).value, {});
      assert Dict(Flatten(schema).value.fields) == Flatten(schema).value;
    }
  }

  // --- what references and unions become -------------------------------------------------------

  lemma {:induction false} LastPartIs(prefix: string, name: string)
    requires '/' !in name
    ensures LastPart(prefix + "/" + name) == name
    decreases |prefix|
  {
    var reference := prefix + "/" + name;
    if prefix == "" {
      assert reference[1..] == name && reference[0] == '/';
      NameIsLast(name);
    } else {
      assert reference[1..] == prefix[1..] + "/" + name;
      assert reference[1..][|prefix| - 1] == '/';
      LastPartIs(prefix[1..], name);
    }
  }

  lemma NameIsLast(name: string)
    requires '/' !in name
    ensures LastPart(name) == name
  {
  }

  /** A reference stands for its definition, whatever stands beside it; one that
      leads nowhere for anything, and one that leads back to itself for any object. */
  lemma ReferenceIsInlined(defs: Definitions, fields: map<string, Json>, prefix: string, name: string, expanding: set<string>)
    requires "$ref" in fields && fields["$ref"] == Text(prefix + "/" + name) && '/' !in name
    ensures name in expanding ==> Walk(defs, Dict(fields), expanding) == Some(Dict(map["type" := Text("object")]))
    ensures name !in expanding && name !in defs ==> Walk(defs, Dict(fields), expanding) == Some(Dict(map[]))
    ensures name !in expanding && name in defs && Flat(defs[name]) ==> Walk(defs, Dict(fields), expanding) == Some(defs[name])
    ensures name !in expanding && name in defs && defs[name] == Dict(fields) ==>
      Walk(defs, Dict(fields), expanding) == Some(Dict(map["type" := Text("object")]))
  {
    LastPartIs(prefix, name);
    if name !in expanding && name in defs && Flat(defs[name]) {
      FlatIsFixed(defs, defs[name], expanding + {name});
    }
  }

  lemma {:induction false} OneRealOption(items: seq<Json>, i: nat)
    requires i < |items| && items[i] != NULL_TYPE
    requires forall j | 0 <= j < |items| && j != i :: items[j] == NULL_TYPE
    ensures RealOptions(items) == [items[i]]
  {
    if i > 0 {
      OneRealOption(items[1..], i - 1);
    } else {
      NoRealOptions(items[1..]);
    }
  }

  lemma {:induction false} NoRealOptions(items: seq<Json>)
    requires forall j | 0 <= j < |items| :: items[j] == NULL_TYPE
    ensures RealOptions(items) == []
  {
    if items != [] {
      NoRealOptions(items[1..]);
    }
  }

  /** A nullable union becomes its one real option, and the keys beside it win. */
  lemma NullableCollapses(defs: Definitions, fields: map<string, Json>, i: nat, expanding: set<string>)
    requires "anyOf" in fields && fields["anyOf"].List? && i < |fields["anyOf"].items|
    requires fields["anyOf"].items[i].Dict? && fields["anyOf"].items[i] != NULL_TYPE
    requires forall j | 0 <= j < |fields["anyOf"].items| && j != i :: fields["anyOf"].items[j] == NULL_TYPE
    requires forall key | key in fields :: Kept(key) && key != "$ref" && FlatField(fields[key], key)
    ensures Walk(defs, Dict(fields), expanding).Some? && Walk(defs, Dict(fields), expanding).value.Dict?
    ensures var flat := Walk(defs, Dict(fields), expanding).value.fields;
      var option := fields["anyOf"].items[i].fields;
      && (forall key :: key in flat <==> key in option || (key in fields && key != "anyOf"))
      && (forall key | key in flat :: flat[key] == if key in fields && key != "anyOf" then fields[key] else option[key])
  {
    var node := Dict(fields);
    assert node != EMPTY by {
      assert "anyOf" in fields;
    }
    forall key | key in fields ensures WalkField(defs, node, key, expanding) == Some(fields[key]) {
      FieldIsFixed(defs, node, key, expanding);
    }
    var out := WalkFields(defs, node, expanding);
    assert out.Some? && out.value == fields;
    OneRealOption(fields["anyOf"].items, i);
  }
}
