/** Contracts as documents: how an operation, its schemas and references to them are written down, and that the check
    of `scripts/check-openapi-compat.py` reads back what was written. */
module Documents {
  import opened Wrappers
  import opened Sequences
  import opened Signatures
  import opened OpenApi
  import opened Silence

  datatype ParameterSpec = ParameterSpec(name: Json, location: Json, required: bool)

  /** An operation: its parameters, the schema of its body, and the schema of the answer with each status. */
  datatype Spec = Spec(parameters: seq<ParameterSpec>, body: Json, answers: seq<(string, Json)>)

  // --------------------------------------------------------------------------------------------
  // Writing
  // --------------------------------------------------------------------------------------------

  function ParameterNode(p: ParameterSpec): Json {
    Obj([("name", p.name), ("in", p.location), ("required", Bool(p.required))])
  }

  function Content(schema: Json): Json {
    Obj(Only("content", Obj(Only("application/json", Obj(Only("schema", schema))))))
  }

  function AnswerMember(answer: (string, Json)): (string, Json) {
    (answer.0, Content(answer.1))
  }

  function OperationNode(spec: Spec): Fields {
    [("parameters", Arr(Map(ParameterNode, spec.parameters))),
     ("requestBody", Content(spec.body)),
     ("responses", Obj(Map(AnswerMember, spec.answers)))]
  }

  /** The document with one operation and these schemas. */
  function Document(path: string, m: string, spec: Spec, schemas: Fields): Fields {
    [("paths", Obj(Only(path, Obj(Only(m, Obj(OperationNode(spec))))))),
     ("components", Obj(Only("schemas", Obj(schemas))))]
  }

  function ObjectNode(required: seq<string>, props: Fields): Fields {
    [("type", Str("object")), ("required", Arr(Map((s: string) => Str(s), required))), ("properties", Obj(props))]
  }

  function Reference(name: string): Json {
    Obj(Only("$ref", Str("#/components/schemas/" + name)))
  }

  // --------------------------------------------------------------------------------------------
  // Reading back
  // --------------------------------------------------------------------------------------------

  lemma {:induction false} GetThird(a: (string, Json), b: (string, Json), c: (string, Json), key: string)
    ensures Get([a, b, c], key)
         == if a.0 == key then a.1 else if b.0 == key then b.1 else if c.0 == key then c.1 else Null
  {
    var fields := [a, b, c];
    assert fields[1..] == [b, c] && fields[1..][1..] == [c] && fields[1..][1..][1..] == [];
    assert Get(fields[1..][1..], key) == if c.0 == key then c.1 else Get([], key);
  }

  lemma {:induction false} GetSecond(a: (string, Json), b: (string, Json), key: string)
    ensures Get([a, b], key) == if a.0 == key then a.1 else if b.0 == key then b.1 else Null
  {
    var fields := [a, b];
    assert fields[1..] == [b] && fields[1..][1..] == [];
  }

  lemma {:induction false} DocumentIsRead(path: string, m: string, spec: Spec, schemas: Fields)
    requires m in {"get", "put", "post", "delete", "options", "head", "patch", "trace"}
    ensures var doc := Document(path, m, spec, schemas);
            && Operations(doc) == {Operation(path, m)}
            && OperationAt(doc, Operation(path, m)) == Some(OperationNode(spec))
            && Schemas(doc) == schemas
  {
    var doc := Document(path, m, spec, schemas);
    var item := Only(m, Obj(OperationNode(spec)));
    var paths, components := Only(path, Obj(item)), Only("schemas", Obj(schemas));
    GetSecond(("paths", Obj(paths)), ("components", Obj(components)), "paths");
    GetSecond(("paths", Obj(paths)), ("components", Obj(components)), "components");
    GetOnly("schemas", Obj(schemas), "schemas");
    forall k {
      GetOnly(path, Obj(item), k);
    }
    forall k {
      GetOnly(m, Obj(OperationNode(spec)), k);
    }
    hide Get, OperationNode;
    var op := Operation(path, m);
    assert doc == [("paths", Obj(paths)), ("components", Obj(components))];
    assert FieldsOf(Get(doc, "components")) == components;
    assert Get(doc, "paths") == Obj(paths) && Keys(paths) == {path};
    assert op in Operations(doc);
    forall o | o in Operations(doc) ensures o == op {
      assert OperationAt(doc, o).Some?;
    }
  }

  /** A member of a path that is no method is no operation. */
  lemma {:induction false} OtherMembersAreNone(doc: Fields, path: string, m: string)
    requires m !in {"get", "put", "post", "delete", "options", "head", "patch", "trace"}
    ensures Operation(path, m) !in Operations(doc)
  {
    hide Get;
    assert OperationAt(doc, Operation(path, m)) == None;
  }

  /** Of the contents of an answer, the first that has a schema is read, whatever its media type. */
  lemma {:induction false} FirstSchemaIs(content: Fields, k: nat)
    requires k < |content| && Truthy(Get(FieldsOf(content[k].1), "schema"))
    requires forall i :: 0 <= i < k ==> !Truthy(Get(FieldsOf(content[i].1), "schema"))
    ensures FirstSchema(content) == Get(FieldsOf(content[k].1), "schema")
  {
    hide Get, Truthy;
    if k > 0 {
      FirstSchemaIs(content[1..], k - 1);
    }
  }

  lemma {:induction false} ContentIsRead(schema: Json)
    ensures var content := FieldsOf(Get(FieldsOf(Content(schema)), "content"));
            && Get(FieldsOf(Get(content, "application/json")), "schema") == schema
            && FirstSchema(content) == if Truthy(schema) then schema else Null
  {
    var media := Only("schema", schema);
    var content := Only("application/json", Obj(media));
    GetOnly("schema", schema, "schema");
    GetOnly("application/json", Obj(media), "application/json");
    GetOnly("content", Obj(content), "content");
    assert content[0].1 == Obj(media) && content[1..] == [];
    hide Get;
  }

  /** With different statuses, each answer is found under its own. */
  lemma {:induction false} AnswerIsRead(answers: seq<(string, Json)>, k: nat)
    requires k < |answers| && forall i, j :: 0 <= i < j < |answers| ==> answers[i].0 != answers[j].0
    ensures Get(Map(AnswerMember, answers), answers[k].0) == Content(answers[k].1)
  {
    var members := Map(AnswerMember, answers);
    hide Content, Get;
    forall i | 0 <= i < k ensures members[i].0 != members[k].0 {
      assert answers[i].0 != answers[k].0;
    }
    GetIsFirst(members, k);
  }

  lemma {:induction false} ParameterIsRead(p: ParameterSpec)
    ensures var fields := FieldsOf(ParameterNode(p));
            && Get(fields, "name") == p.name && Get(fields, "in") == p.location
            && Get(fields, "required") == Bool(p.required)
  {
    forall k {
      GetThird(("name", p.name), ("in", p.location), ("required", Bool(p.required)), k);
    }
    hide Get;
  }

  /** Some parameter, required if only those count, has this name and place. */
  ghost predicate Lists(parameters: seq<ParameterSpec>, only: bool, x: (Json, Json)) {
    exists p :: p in parameters && (only ==> p.required) && x == (p.name, p.location)
  }

  ghost predicate NodesList(nodes: seq<Json>, only: bool, x: (Json, Json)) {
    exists n :: n in nodes && n.Obj? && (only ==> Truthy(Get(n.fields, "required")))
                && x == (Get(n.fields, "name"), Get(n.fields, "in"))
  }

  lemma {:induction false} NodesListThem(parameters: seq<ParameterSpec>, only: bool, x: (Json, Json))
    ensures NodesList(Map(ParameterNode, parameters), only, x) <==> Lists(parameters, only, x)
  {
    var nodes := Map(ParameterNode, parameters);
    NodesAre(parameters);
    hide Get, Map;
    if NodesList(nodes, only, x) {
      var n :| n in nodes && n.Obj? && (only ==> Truthy(Get(n.fields, "required")))
               && x == (Get(n.fields, "name"), Get(n.fields, "in"));
      var p :| p in parameters && n == ParameterNode(p);
      ParameterIsRead(p);
    }
    if Lists(parameters, only, x) {
      var p :| p in parameters && (only ==> p.required) && x == (p.name, p.location);
      ParameterIsRead(p);
      assert ParameterNode(p) in nodes;
    }
  }

  lemma {:induction false} ParametersAreRead(spec: Spec)
    ensures var op := OperationNode(spec);
            && (forall x :: x in Parameters(op) <==> Lists(spec.parameters, false, x))
            && (forall x :: x in RequiredParameters(op) <==> Lists(spec.parameters, true, x))
  {
    MembersAre(spec);
    hide Get, OperationNode, Lists;
    forall x, only {
      NodesListThem(spec.parameters, only, x);
    }
  }

  lemma {:induction false} NodesAre(parameters: seq<ParameterSpec>)
    ensures forall n :: n in Map(ParameterNode, parameters) ==> exists p :: p in parameters && n == ParameterNode(p)
    ensures forall p :: p in parameters ==> ParameterNode(p) in Map(ParameterNode, parameters)
  {
    var nodes := Map(ParameterNode, parameters);
    forall n | n in nodes ensures exists p :: p in parameters && n == ParameterNode(p) {
      var i :| 0 <= i < |nodes| && nodes[i] == n;
      assert parameters[i] in parameters;
    }
    forall p | p in parameters ensures ParameterNode(p) in nodes {
      var i :| 0 <= i < |parameters| && parameters[i] == p;
      assert nodes[i] == ParameterNode(p);
    }
  }

  lemma {:induction false} MembersAre(spec: Spec)
    ensures var op := OperationNode(spec);
            && Get(op, "parameters") == Arr(Map(ParameterNode, spec.parameters))
            && Get(op, "requestBody") == Content(spec.body)
            && Get(op, "responses") == Obj(Map(AnswerMember, spec.answers))
  {
    forall k {
      GetThird(("parameters", Arr(Map(ParameterNode, spec.parameters))), ("requestBody", Content(spec.body)),
               ("responses", Obj(Map(AnswerMember, spec.answers))), k);
    }
    hide Get, Content;
  }

  lemma {:induction false} StatusesAreRead(answers: seq<(string, Json)>)
    ensures Keys(Map(AnswerMember, answers)) == set a | a in answers :: a.0
  {
    var members := Map(AnswerMember, answers);
    forall s | s in (set a | a in answers :: a.0) ensures s in Keys(members) {
      var a :| a in answers && a.0 == s;
      var i :| 0 <= i < |answers| && answers[i] == a;
      assert members[i].0 == s;
    }
    forall s | s in Keys(members) ensures s in (set a | a in answers :: a.0) {
      var i :| 0 <= i < |members| && members[i].0 == s;
      assert answers[i] in answers;
    }
  }

  /** What the check reads of a written operation is what was written. */
  lemma {:induction false} OperationIsRead(show: Printer, spec: Spec, doc: Fields, k: nat)
    requires forall i, j :: 0 <= i < j < |spec.answers| ==> spec.answers[i].0 != spec.answers[j].0
    ensures var i := InterfaceOf(show, OperationNode(spec), doc);
            && i.request == ShapeOf(show, Resolve(spec.body, doc), doc)
            && i.statuses == (set a | a in spec.answers :: a.0)
            && (forall x :: x in i.parameters <==> Lists(spec.parameters, false, x))
            && (forall x :: x in i.requiredParameters <==> Lists(spec.parameters, true, x))
            && (k < |spec.answers| && Truthy(spec.answers[k].1) ==>
                  && spec.answers[k].0 in i.responses
                  && i.responses[spec.answers[k].0] == ShapeOf(show, Resolve(spec.answers[k].1, doc), doc))
  {
    var op := OperationNode(spec);
    InterfaceParts(show, op, doc);
    ResponseParts(show, op, doc);
    ParametersAreRead(spec);
    MembersAre(spec);
    ContentIsRead(spec.body);
    StatusesAreRead(spec.answers);
    hide ShapeOf, InterfaceOf, Parameters, RequiredParameters, OperationNode, Resolve, Get, Keys, Map, Content,
      FirstSchema, ResponseShapes;
    if k < |spec.answers| {
      AnswerIsRead(spec.answers, k);
      ContentIsRead(spec.answers[k].1);
      assert spec.answers[k] in spec.answers;
    }
  }

  lemma {:induction false} ObjectIsRead(show: Printer, required: seq<string>, props: Fields, doc: Fields)
    ensures var s := ShapeOf(show, ObjectNode(required, props), doc);
            && s.required == (set name | name in required) && s.props.Keys == Keys(props)
            && forall n :: n in s.props ==> s.props[n] == TypeOf(show, Resolve(Get(props, n), doc))
  {
    var node := ObjectNode(required, props);
    var names := Map((s: string) => Str(s), required);
    forall k {
      GetThird(("type", Str("object")), ("required", Arr(names)), ("properties", Obj(props)), k);
    }
    ShapeParts(show, node, doc);
    hide Get, TypeOf, Resolve, ShapeOf, Keys;
    forall name | name in required ensures name in RequiredOf(node) {
      var i :| 0 <= i < |required| && required[i] == name;
      assert names[i] == Str(name);
    }
    forall name | name in RequiredOf(node) ensures name in required {
      var v :| v in names && v.Str? && v.s == name;
      var i :| 0 <= i < |names| && names[i] == v;
    }
  }

  /** A reference into the schemas of its document means the schema of that name. */
  lemma {:induction false} ReferenceIsRead(path: string, m: string, spec: Spec, schemas: Fields, name: string)
    requires '/' !in name
    ensures var doc := Document(path, m, spec, schemas);
            Resolve(Reference(name), doc) == if name in Keys(schemas) then Resolve(Get(schemas, name), doc) else []
  {
    var doc := Document(path, m, spec, schemas);
    var components := Only("schemas", Obj(schemas));
    GetSecond(doc[0], doc[1], "components");
    GetOnly("schemas", Obj(schemas), "schemas");
    GetOnly("$ref", Str("#/components/schemas/" + name), "$ref");
    hide Document, Get, Resolve;
    ReferenceNames(Reference(name), name, doc, components, schemas);
  }

  // --------------------------------------------------------------------------------------------
  // Answers by reference
  // --------------------------------------------------------------------------------------------

  /** An operation that answers with the schema `name`, by reference. */
  function Referring(status: string, name: string): Spec {
    Spec([], Null, [(status, Reference(name))])
  }

  /** The document with such an operation and the schema. */
  function ReferringDocument(path: string, status: string, name: string, schema: Fields): Fields {
    Document(path, "get", Referring(status, name), Only(name, Obj(schema)))
  }

  /** What is read of an operation with one answer and nothing else. */
  function OneAnswer(status: string, shape: Shape): (i: Interface)
    ensures Consistent(i)
  {
    Interface(Shape({}, map[]), {status}, map[status := shape], {}, {})
  }

  lemma {:induction false} ReferringIsRead(show: Printer, path: string, status: string, name: string, schema: Fields)
    requires '/' !in name && Get(schema, "$ref") == Null
    ensures var d, op := ReferringDocument(path, status, name, schema), Operation(path, "get");
            && Operations(d) == {op} && Keys(Schemas(d)) == {name}
            && At(show, d, op) == OneAnswer(status, ShapeOf(show, schema, d))
  {
    var d, op := ReferringDocument(path, status, name, schema), Operation(path, "get");
    hide Document, OperationNode, Operations, OperationAt, InterfaceOf, ShapeOf, Resolve, Get, Keys, Schemas, Reference,
      OneAnswer, Referring, Only;
    DocumentIsRead(path, "get", Referring(status, name), Only(name, Obj(schema)));
    GetOnly(name, Obj(schema), name);
    ReferenceIsRead(path, "get", Referring(status, name), Only(name, Obj(schema)), name);
    SchemaIsItself(schema, d);
    ReferringAnswers(show, status, name, schema, d);
  }

  lemma {:induction false} ReferringAnswers(show: Printer, status: string, name: string, schema: Fields, doc: Fields)
    requires Resolve(Reference(name), doc) == schema
    ensures InterfaceOf(show, OperationNode(Referring(status, name)), doc)
         == OneAnswer(status, ShapeOf(show, schema, doc))
  {
    hide *;
    ReferringParts(status, name);
    OperationIsRead(show, Referring(status, name), doc, 0);
    NullResolves(doc);
    EmptyShape(show, doc);
    OnlyAnswer(InterfaceOf(show, OperationNode(Referring(status, name)), doc), status, Reference(name));
  }

  lemma {:induction false} ReferringParts(status: string, name: string)
    ensures Referring(status, name) == Spec([], Null, [(status, Reference(name))]) && Truthy(Reference(name))
  {
  }

  lemma {:induction false} OnlyAnswer(i: Interface, status: string, schema: Json)
    requires i.request == Shape({}, map[]) && i.responses.Keys == i.statuses
    requires i.statuses == set a | a in [(status, schema)] :: a.0
    requires forall x :: x in i.parameters <==> Lists([], false, x)
    requires forall x :: x in i.requiredParameters <==> Lists([], true, x)
    ensures status in i.responses && i == OneAnswer(status, i.responses[status])
  {
    assert i.parameters == {} && i.requiredParameters == {};
    assert (status, schema) in [(status, schema)];
    assert i.statuses == {status};
    assert i.responses == map[status := i.responses[status]];
  }

  lemma {:induction false} SchemaIsItself(schema: Fields, doc: Fields)
    requires Get(schema, "$ref") == Null
    ensures Resolve(Obj(schema), doc) == schema
  {
  }

  /** Answers by reference are compared by the schemas they name, if their status says success, and not at all if it
      does not. */
  lemma {:induction false} ReferencesAreCompared(
      show: Printer, path: string, status: string, name: string, x: Fields, y: Fields)
    requires '/' !in name && Get(x, "$ref") == Null == Get(y, "$ref")
    ensures var d, e := ReferringDocument(path, status, name, x), ReferringDocument(path, status, name, y);
            Silent(show, d, e) <==>
              (status != "" && status[0] == '2' ==> KeptResponse(ShapeOf(show, x, d), ShapeOf(show, y, e)))
  {
    hide *;
    var d, e := ReferringDocument(path, status, name, x), ReferringDocument(path, status, name, y);
    ReferringIsRead(show, path, status, name, x);
    ReferringIsRead(show, path, status, name, y);
    SingleSilent(show, d, e, Operation(path, "get"));
    OneAnswerKept(status, ShapeOf(show, x, d), ShapeOf(show, y, e));
  }

  lemma {:induction false} SingleSilent(show: Printer, d: Fields, e: Fields, op: Operation)
    requires Operations(d) == {op} == Operations(e) && Keys(Schemas(d)) <= Keys(Schemas(e))
    ensures Silent(show, d, e) <==> Kept(At(show, d, op), At(show, e, op))
  {
    SilenceMeans(show, d, e);
    hide Silent, At, Schemas, Kept, Operations;
    assert op in Operations(d);
  }

  lemma {:induction false} OneAnswerKept(status: string, a: Shape, b: Shape)
    ensures Kept(OneAnswer(status, a), OneAnswer(status, b)) <==>
              (status != "" && status[0] == '2' ==> KeptResponse(a, b))
  {
    hide KeptResponse;
  }

  /** A property that goes from a schema of a success is reported where the answer refers to the schema. */
  lemma {:induction false} LossIsReported(
      show: Printer, path: string, status: string, name: string, property: string, node: Json)
    requires '/' !in name && status != "" && status[0] == '2'
    ensures var d := ReferringDocument(path, status, name, ObjectNode([], Only(property, node)));
            var e := ReferringDocument(path, status, name, ObjectNode([], []));
            Found(show, d, e, PropertyRemoved(Response(Operation(path, "get"), status), property))
  {
    hide *;
    var x, y := ObjectNode([], Only(property, node)), ObjectNode([], []);
    var d, e := ReferringDocument(path, status, name, x), ReferringDocument(path, status, name, y);
    var op := Operation(path, "get");
    NoReference([], Only(property, node));
    NoReference([], []);
    ReferringIsRead(show, path, status, name, x);
    ReferringIsRead(show, path, status, name, y);
    ObjectIsRead(show, [], Only(property, node), d);
    ObjectIsRead(show, [], [], e);
    GetOnly(property, node, property);
    NoMembers();
    RemovalIsFound(op, status, ShapeOf(show, x, d), ShapeOf(show, y, e), property);
    FoundIsFinding(show, d, e, op, PropertyRemoved(Response(op, status), property));
  }

  lemma {:induction false} NoMembers()
    ensures Keys([]) == {}
  {
  }

  lemma {:induction false} NoReference(required: seq<string>, props: Fields)
    ensures Get(ObjectNode(required, props), "$ref") == Null
  {
    var names := Map((s: string) => Str(s), required);
    GetThird(("type", Str("object")), ("required", Arr(names)), ("properties", Obj(props)), "$ref");
    hide Get;
  }

  lemma {:induction false} RemovalIsFound(op: Operation, status: string, old_: Shape, new_: Shape, property: string)
    requires status != "" && status[0] == '2'
    requires property in old_.props && property !in new_.props
    ensures OperationFinding(op, OneAnswer(status, old_), OneAnswer(status, new_),
                             PropertyRemoved(Response(op, status), property))
  {
  }

  lemma {:induction false} FoundIsFinding(show: Printer, d: Fields, e: Fields, op: Operation, f: Finding)
    requires op in Operations(d) && op in Operations(e) && f.PropertyRemoved? && f.site.op == op
    ensures Found(show, d, e, f) <==> OperationFinding(op, At(show, d, op), At(show, e, op), f)
  {
    hide OperationFinding, InterfaceOf, OperationAt;
  }
}
