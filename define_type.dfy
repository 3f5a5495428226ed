/**
 * Node-type definitions: `defineType(type, { fields, generate })` checks the
 * signature and returns the type's tag, its `generate` routine and a
 * `builder` that turns call arguments into a node. The builder binds its
 * arguments to the declared fields either by position or, when given one
 * plain object without a `type`, by name; it then walks the fields in
 * declaration order, validating and storing every defined value and
 * throwing on the first missing required field or failing validator.
 *
 * A node is the property map of a JavaScript object, starting as
 * `{ type }`. The declared fields are a sequence of named fields, in the
 * order `Object.keys` lists them.
 */
module DefineType {
  import opened Wrappers
  import opened JsValue
  import opened Assert
  import opened Printer

  /** A field's declaration: its validator and whether it may be left undefined. */
  datatype Field = Field(validate: Validator, optional: bool)

  datatype NamedField = NamedField(name: string, field: Field)

  /** The declared fields, in `Object.keys` order. */
  type Schema = seq<NamedField>

  /** What `defineType` returns; the builder is `Builder(definition, args)`. */
  datatype TypeDefinition = TypeDefinition(tag: string, schema: Schema, generate: Generator)

  /** The object `makeInvocableDefinition` returns: a callable carrying the definition's `generate` and `type`. */
  datatype InvocableDefinition = InvocableDefinition(definition: TypeDefinition, generate: Generator, tag: string)

  /** How the builder reads its arguments: the argument list by position, or one object by name. */
  datatype Input = Positional(args: seq<Value>) | Named(props: map<string, Value>)

  predicate DistinctNames(schema: Schema)
  {
    forall i, j :: 0 <= i < j < |schema| ==> schema[i].name != schema[j].name
  }

  function Names(schema: Schema): (names: set<string>)
    ensures forall i :: 0 <= i < |schema| ==> schema[i].name in names
    ensures forall k :: k in names ==> exists i :: 0 <= i < |schema| && schema[i].name == k
  {
    set i | 0 <= i < |schema| :: schema[i].name
  }

  /**
   * `defineType(type, { fields = {}, generate })`: omitted fields are none;
   * a missing `generate` throws a plain `Error` naming the type.
   */
  function DefineType(tag: string, fields: Option<Schema>, generate: Option<Generator>): (r: Result<TypeDefinition>)
    ensures r.Err? <==> generate.None?
    ensures r.Err? ==> r.error == Error(PlainError, "Expected a `generate` method for type `" + tag + "`")
    ensures r.Ok? ==> r.value.tag == tag && r.value.generate == generate.value
    ensures r.Ok? ==> r.value.schema == (if fields.Some? then fields.value else [])
  {
    match generate
    case None => Err(Error(PlainError, "Expected a `generate` method for type `" + tag + "`"))
    case Some(g) => Ok(TypeDefinition(tag, fields.GetOr([]), g))
  }

  /**
   * The builder's choice of input: by name when it gets exactly one argument
   * that is a non-array object whose `type` is undefined; reading `type` of
   * a lone `null` throws.
   */
  function Bind(args: seq<Value>): (r: Result<Input>)
    ensures r.Err? <==> args == [Null]
    ensures r.Err? ==> r.error == Error(TypeError, "Cannot read properties of null (reading 'type')")
    ensures r.Ok? && r.value.Named? <==>
      |args| == 1 && args[0].Obj? && ("type" !in args[0].props || args[0].props["type"] == Undefined)
    ensures r.Ok? && r.value.Named? ==> r.value.props == args[0].props
    ensures r.Ok? && r.value.Positional? ==> r.value.args == args
  {
    if |args| == 1 && TypeOf(args[0]) == "object" && !args[0].Arr? then
      match ReadType(args[0])
      case Err(e) => Err(e)
      case Ok(t) => if t == Undefined then Ok(Named(args[0].props)) else Ok(Positional(args))
    else Ok(Positional(args))
  }

  /** `Array.isArray(input) ? input[i] : input[key]`, with `undefined` for a missing index or key. */
  function ValueFor(input: Input, i: nat, key: string): Value
  {
    match input
    case Positional(args) => if i < |args| then args[i] else Undefined
    case Named(props) => if key in props then props[key] else Undefined
  }

  /** The message of the error for a required field left undefined. */
  function MissingFieldMessage(key: string, tag: string): string
  {
    "Expected field '" + key + "' to be defined for type " + tag + "."
  }

  /**
   * One iteration of the builder's loop on the node built so far: a defined
   * value is validated against the node and stored; an undefined value is
   * an error unless the field is optional.
   */
  function FillField(tag: string, node: map<string, Value>, f: NamedField, value: Value): (r: Result<map<string, Value>>)
    ensures r.Ok? && value != Undefined ==> r.value == node[f.name := value]
    ensures r.Ok? && value == Undefined ==> r.value == node
    ensures value == Undefined ==> (r.Err? <==> !f.field.optional)
    ensures value == Undefined && r.Err? ==> r.error == Error(PlainError, MissingFieldMessage(f.name, tag))
    ensures value != Undefined ==> (r.Err? <==> Check(f.field.validate, value, Obj(node)).Fail?)
    ensures value != Undefined && r.Err? ==> r.error == Check(f.field.validate, value, Obj(node)).error
  {
    if value != Undefined then
      match Check(f.field.validate, value, Obj(node))
      case Fail(e) => Err(e)
      case Pass => Ok(node[f.name := value])
    else if !f.field.optional then Err(Error(PlainError, MissingFieldMessage(f.name, tag)))
    else Ok(node)
  }

  /** The node after the builder's loop has handled the first `i` fields, or the error it threw. */
  function Fill(tag: string, schema: Schema, input: Input, i: nat): (r: Result<map<string, Value>>)
    requires i <= |schema|
    ensures r.Ok? ==> "type" in r.value
    ensures r.Ok? ==> forall j :: 0 <= j < i && ValueFor(input, j, schema[j].name) != Undefined ==>
      schema[j].name in r.value
  {
    if i == 0 then Ok(map["type" := Str(tag)])
    else
      match Fill(tag, schema, input, i - 1)
      case Err(e) => Err(e)
      case Ok(node) => FillField(tag, node, schema[i - 1], ValueFor(input, i - 1, schema[i - 1].name))
  }

  /** What calling the definition's `builder` with `args` returns or throws. */
  function Builder(def: TypeDefinition, args: seq<Value>): (r: Result<Value>)
    ensures r.Ok? ==> r.value.Obj? && "type" in r.value.props
    ensures r.Ok? ==> Bind(args).Ok?
    ensures r.Ok? && Bind(args).Ok? ==>
      forall j :: 0 <= j < |def.schema| && ValueFor(Bind(args).value, j, def.schema[j].name) != Undefined ==>
        def.schema[j].name in r.value.props
  {
    match Bind(args)
    case Err(e) => Err(e)
    case Ok(input) =>
      match Fill(def.tag, def.schema, input, |def.schema|)
      case Err(e) => Err(e)
      case Ok(node) => Ok(Obj(node))
  }

  /** The builder's loop: each field in order, stopping at the first error. */
  method Build(def: TypeDefinition, args: seq<Value>) returns (r: Result<Value>)
    ensures r == Builder(def, args)
  {
    var bound := Bind(args);
    if bound.Err? {
      return Err(bound.error);
    }
    var input := bound.value;
    var node: map<string, Value> := map["type" := Str(def.tag)];
    for i := 0 to |def.schema|
      invariant Fill(def.tag, def.schema, input, i) == Ok(node)
    {
      var f := def.schema[i];
      var value := ValueFor(input, i, f.name);
      if value != Undefined {
        var outcome := Check(f.field.validate, value, Obj(node));
        if outcome.Fail? {
          FillErrorSticks(def.tag, def.schema, input, i + 1, |def.schema|);
          return Err(outcome.error);
        }
        node := node[f.name := value];
        continue;
      }
      if !f.field.optional {
        FillErrorSticks(def.tag, def.schema, input, i + 1, |def.schema|);
        return Err(Error(PlainError, MissingFieldMessage(f.name, def.tag)));
      }
    }
    r := Ok(Obj(node));
  }

  /** `makeInvocableDefinition(def)`: calling it is calling the builder, and it carries `generate` and `type`. */
  function MakeInvocable(def: TypeDefinition): (f: InvocableDefinition)
    ensures f.generate == def.generate && f.tag == def.tag
    ensures forall args :: Invoke(f, args) == Builder(def, args)
  {
    InvocableDefinition(def, def.generate, def.tag)
  }

  /** Calling an invocable definition with `args`. */
  function Invoke(f: InvocableDefinition, args: seq<Value>): Result<Value>
  {
    Builder(f.definition, args)
  }

  /** Once the loop has thrown, the error is what the builder throws. */
  lemma {:induction false} FillErrorSticks(tag: string, schema: Schema, input: Input, i: nat, n: nat)
    requires i <= n <= |schema|
    requires Fill(tag, schema, input, i).Err?
    ensures Fill(tag, schema, input, n) == Fill(tag, schema, input, i)
    decreases n - i
  {
    if i < n {
      FillErrorSticks(tag, schema, input, i + 1, n);
    }
  }

  /** The built node's keys are `type` and names of declared fields only. */
  lemma {:induction false} FillKeys(tag: string, schema: Schema, input: Input, i: nat)
    requires i <= |schema|
    requires Fill(tag, schema, input, i).Ok?
    ensures Fill(tag, schema, input, i).value.Keys <= {"type"} + Names(schema[..i])
  {
    if i > 0 {
      FillKeys(tag, schema, input, i - 1);
      assert Names(schema[..i - 1]) <= Names(schema[..i]) by {
        forall k | k in Names(schema[..i - 1]) ensures k in Names(schema[..i]) {
          var j :| 0 <= j < i - 1 && schema[..i - 1][j].name == k;
          assert schema[..i][j].name == k;
        }
      }
      assert schema[i - 1].name in Names(schema[..i]) by {
        assert schema[..i][i - 1] == schema[i - 1];
      }
    }
  }

  /** Unless a field is itself named `type`, the node's `type` is the definition's tag. */
  lemma {:induction false} FillKeepsTag(tag: string, schema: Schema, input: Input, i: nat)
    requires i <= |schema|
    requires "type" !in Names(schema)
    requires Fill(tag, schema, input, i).Ok?
    ensures "type" in Fill(tag, schema, input, i).value
    ensures Fill(tag, schema, input, i).value["type"] == Str(tag)
  {
    if i > 0 {
      FillKeepsTag(tag, schema, input, i - 1);
    }
  }

  /**
   * With distinct field names, a node the loop built holds exactly the
   * fields whose values were defined, each with the value it was given;
   * undefined optional fields stay absent.
   */
  lemma {:induction false} FillStoresDefinedValues(tag: string, schema: Schema, input: Input, i: nat)
    requires i <= |schema|
    requires DistinctNames(schema) && "type" !in Names(schema)
    requires Fill(tag, schema, input, i).Ok?
    ensures forall j :: 0 <= j < i ==>
      var v := ValueFor(input, j, schema[j].name);
      (schema[j].name in Fill(tag, schema, input, i).value <==> v != Undefined) &&
      (v != Undefined ==> Fill(tag, schema, input, i).value[schema[j].name] == v)
  {
    if i > 0 {
      var prev := Fill(tag, schema, input, i - 1);
      FillStoresDefinedValues(tag, schema, input, i - 1);
      FillKeys(tag, schema, input, i - 1);
      var last := schema[i - 1].name;
      assert last !in Names(schema[..i - 1]);
      assert last != "type";
      assert last !in prev.value;
      forall j | 0 <= j < i - 1
        ensures schema[j].name != last
      {
      }
    }
  }

  /** The builder's node is tagged with the definition's type. */
  lemma {:induction false} BuilderTagsNode(def: TypeDefinition, args: seq<Value>)
    requires "type" !in Names(def.schema)
    requires Builder(def, args).Ok?
    ensures Builder(def, args).value.Obj?
    ensures ReadType(Builder(def, args).value) == Ok(Str(def.tag))
  {
    FillKeepsTag(def.tag, def.schema, Bind(args).value, |def.schema|);
  }

  /** A required field left undefined, reached with every earlier field accepted, is the builder's error. */
  lemma {:induction false} MissingRequiredFieldThrows(def: TypeDefinition, args: seq<Value>, j: nat)
    requires j < |def.schema|
    requires Bind(args).Ok?
    requires Fill(def.tag, def.schema, Bind(args).value, j).Ok?
    requires !def.schema[j].field.optional
    requires ValueFor(Bind(args).value, j, def.schema[j].name) == Undefined
    ensures Builder(def, args) == Err(Error(PlainError, MissingFieldMessage(def.schema[j].name, def.tag)))
  {
    FillErrorSticks(def.tag, def.schema, Bind(args).value, j + 1, |def.schema|);
  }

  /**
   * A validator that throws on a defined value, reached with every earlier
   * field accepted, throws its error out of the builder unchanged; it sees
   * the node built so far.
   */
  lemma {:induction false} ValidatorErrorPropagates(def: TypeDefinition, args: seq<Value>, j: nat, e: Error)
    requires j < |def.schema|
    requires Bind(args).Ok?
    requires Fill(def.tag, def.schema, Bind(args).value, j).Ok?
    requires ValueFor(Bind(args).value, j, def.schema[j].name) != Undefined
    requires Check(def.schema[j].field.validate, ValueFor(Bind(args).value, j, def.schema[j].name),
                   Obj(Fill(def.tag, def.schema, Bind(args).value, j).value)) == Fail(e)
    ensures Builder(def, args) == Err(e)
  {
    FillErrorSticks(def.tag, def.schema, Bind(args).value, j + 1, |def.schema|);
  }

  /** A lone `null` argument throws the engine's `TypeError` before any field is read. */
  lemma NullArgumentThrows(def: TypeDefinition)
    ensures Builder(def, [Null]) == Err(Error(TypeError, "Cannot read properties of null (reading 'type')"))
  {
  }

  /** The definition carries the name it was defined with and the `generate` it was given. */
  lemma DefinitionKeepsSignature(tag: string, fields: Schema, g: Generator)
    ensures DefineType(tag, Some(fields), Some(g)) == Ok(TypeDefinition(tag, fields, g))
  {
  }

  /**
   * One required field accepting anything: a lone array argument is bound by
   * position, so the whole array becomes the field's value.
   */
  lemma {:induction false} LoneArrayBindsFirstField(tag: string, g: Generator, items: seq<Value>)
    ensures var def := TypeDefinition(tag, [NamedField("field1", Field(AnyValue, false))], g);
      Builder(def, [Arr(items)]) == Ok(Obj(map["type" := Str(tag), "field1" := Arr(items)]))
  {
    var def := TypeDefinition(tag, [NamedField("field1", Field(AnyValue, false))], g);
    assert Bind([Arr(items)]) == Ok(Positional([Arr(items)]));
    assert Fill(tag, def.schema, Positional([Arr(items)]), 0) == Ok(map["type" := Str(tag)]);
  }

  /** One required field and an empty object argument: the field is missing. */
  lemma {:induction false} EmptyObjectMissesField(tag: string, g: Generator)
    ensures var def := TypeDefinition(tag, [NamedField("field1", Field(AnyValue, false))], g);
      Builder(def, [Obj(map[])]) == Err(Error(PlainError, MissingFieldMessage("field1", tag)))
  {
    var schema := [NamedField("field1", Field(AnyValue, false))];
    var input := Named(map[]);
    assert Bind([Obj(map[])]) == Ok(input);
    var start := Fill(tag, schema, input, 0);
    assert start == Ok(map["type" := Str(tag)]);
    assert ValueFor(input, 0, "field1") == Undefined;
    assert Fill(tag, schema, input, 1) == FillField(tag, start.value, schema[0], Undefined);
  }
}
