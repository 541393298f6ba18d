/** Changes that the contract check does not see, and one that it need not have reported, as documents. */
module BlindSpots {
  import opened Wrappers
  import opened Signatures
  import opened Readings
  import opened Meanings
  import opened OpenApi
  import opened Silence
  import opened Clients
  import opened Compatibility

  // --------------------------------------------------------------------------------------------
  // Documents with one operation
  // --------------------------------------------------------------------------------------------

  lemma {:induction false} OneOperationWorks(
      show: Printer, r: Reader, path: string, m: string, was: Fields, is_: Fields)
    requires m in Methods()
    ensures var d, e := OneOperationDocument(path, m, was), OneOperationDocument(path, m, is_);
            var op := Operation(path, m);
            && op in Operations(d) && op in Operations(e)
            && At(show, d, op) == InterfaceOf(show, was, d) && At(show, e, op) == InterfaceOf(show, is_, e)
            && (CompatibleFor(show, r, d, e) <==> Works(show, r, d, e, op))
            && (AllInSight(show, d, e) <==> InSight(At(show, d, op), At(show, e, op)))
  {
    OneOperationOnly(path, m, was);
    OneOperationOnly(path, m, is_);
    hide OneOperationDocument, Works, InSight, InterfaceOf, Operations;
  }

  function BodyOperation(schema: Fields): Fields {
    Only("requestBody", Obj(Only("content", Obj(Only("application/json", Obj(Only("schema", Obj(schema))))))))
  }

  lemma {:induction false} BodyOf(schema: Fields, doc: Fields)
    requires Target(Obj(schema)) == None
    ensures var op := BodyOperation(schema);
            && BodySchema(op, doc) == schema && Keys(Responses(op)) == {}
            && Parameters(op) == {} && RequiredParameters(op) == {}
  {
    var media := Only("application/json", Obj(Only("schema", Obj(schema))));
    var body := Obj(Only("content", Obj(media)));
    GetOnly("requestBody", body, "requestBody");
    GetOnly("requestBody", body, "responses");
    GetOnly("requestBody", body, "parameters");
    GetOnly("content", Obj(media), "content");
    GetOnly("application/json", Obj(Only("schema", Obj(schema))), "application/json");
    GetOnly("schema", Obj(schema), "schema");
    assert Resolve(Obj(schema), doc) == schema;
    assert Keys([]) == {};
    hide Get, Resolve;
  }

  /** The document whose one operation takes a body with this schema. */
  function BodyDocument(path: string, schema: Fields): Fields {
    OneOperationDocument(path, "post", BodyOperation(schema))
  }

  /** On such documents everything is about the two schemas. */
  lemma {:induction false} BodyDocuments(show: Printer, r: Reader, path: string, x: Fields, y: Fields)
    requires Target(Obj(x)) == None && Target(Obj(y)) == None
    ensures var d, e := BodyDocument(path, x), BodyDocument(path, y);
            var a, b := ShapeOf(show, x, d), ShapeOf(show, y, e);
            && (Silent(show, d, e) <==>
                  b.required <= a.required && AgreeOnTypes(a, b) && KeepsRequiredProperties(a, b))
            && (AllInSight(show, d, e) <==>
                  forall n :: n in a.required && n !in a.props && n in b.props ==> b.props[n] == "any")
            && (CompatibleFor(show, r, d, e) <==>
                  EveryMessageFits(ContractOf(show, r, x, d), ContractOf(show, r, y, e)))
  {
    var d, e, op := BodyDocument(path, x), BodyDocument(path, y), Operation(path, "post");
    OneOperationSilent(show, path, "post", BodyOperation(x), BodyOperation(y));
    OneOperationWorks(show, r, path, "post", BodyOperation(x), BodyOperation(y));
    BodyIs(show, path, x);
    BodyIs(show, path, y);
    hide OneOperationDocument, BodyOperation, InterfaceOf, ShapeOf, EveryMessageFits, ContractOf, Silent,
      CompatibleFor, AllInSight, Operations, At, Works, InSight, Kept, RequestNode, Statuses;
    BodyAlone(show, r, d, e, op);
  }

  /** What is read of the one operation. */
  lemma {:induction false} BodyIs(show: Printer, path: string, schema: Fields)
    requires Target(Obj(schema)) == None
    ensures var d, op := BodyDocument(path, schema), Operation(path, "post");
            && op in Operations(d) && RequestNode(d, op) == schema && Statuses(d, op) == {}
            && At(show, d, op) == Interface(ShapeOf(show, schema, d), {}, map[], {}, {})
  {
    var d, op, fields := BodyDocument(path, schema), Operation(path, "post"), BodyOperation(schema);
    OneOperationOnly(path, "post", fields);
    BodyOf(schema, d);
    InterfaceParts(show, fields, d);
    hide OneOperationDocument, BodyOperation, InterfaceOf, BodySchema, Responses, Parameters, RequiredParameters,
      ShapeOf, Operations, OperationAt;
  }

  lemma {:induction false} BodyAlone(show: Printer, r: Reader, d: Fields, e: Fields, op: Operation)
    requires op in Operations(d) && op in Operations(e) && Statuses(d, op) == {} == Statuses(e, op)
    requires var x := RequestNode(d, op);
             At(show, d, op) == Interface(ShapeOf(show, x, d), {}, map[], {}, {})
    requires var y := RequestNode(e, op);
             At(show, e, op) == Interface(ShapeOf(show, y, e), {}, map[], {}, {})
    ensures var a, b := ShapeOf(show, RequestNode(d, op), d), ShapeOf(show, RequestNode(e, op), e);
            var i, j := At(show, d, op), At(show, e, op);
            && (Kept(i, j) <==> b.required <= a.required && AgreeOnTypes(a, b) && KeepsRequiredProperties(a, b))
            && (InSight(i, j) <==> forall n :: n in a.required && n !in a.props && n in b.props ==> b.props[n] == "any")
            && (Works(show, r, d, e, op) <==>
                  EveryMessageFits(ContractOf(show, r, RequestNode(d, op), d),
                                   ContractOf(show, r, RequestNode(e, op), e)))
  {
    hide *;
    RequestAlone(ShapeOf(show, RequestNode(d, op), d), ShapeOf(show, RequestNode(e, op), e));
    WorksAlone(show, r, d, e, op);
  }

  lemma {:induction false} RequestAlone(a: Shape, b: Shape)
    ensures var i, j := Interface(a, {}, map[], {}, {}), Interface(b, {}, map[], {}, {});
            && (Kept(i, j) <==> b.required <= a.required && AgreeOnTypes(a, b) && KeepsRequiredProperties(a, b))
            && (InSight(i, j) <==> forall n :: n in a.required && n !in a.props && n in b.props ==> b.props[n] == "any")
  {
    hide AgreeOnTypes, KeepsRequiredProperties;
  }

  lemma {:induction false} WorksAlone(show: Printer, r: Reader, d: Fields, e: Fields, op: Operation)
    requires op in Operations(d) && op in Operations(e) && Statuses(d, op) == {}
    requires At(show, d, op).requiredParameters == {} == At(show, e, op).requiredParameters
    ensures Works(show, r, d, e, op) <==>
              EveryMessageFits(ContractOf(show, r, RequestNode(d, op), d), ContractOf(show, r, RequestNode(e, op), e))
  {
    hide At, RequestNode, Statuses, Operations, ContractOf, EveryMessageFits;
  }

  // --------------------------------------------------------------------------------------------
  // One property
  // --------------------------------------------------------------------------------------------

  function PropertySchema(name: string, node: Fields): Fields {
    Only("properties", Obj(Only(name, Obj(node))))
  }

  lemma {:induction false} PropertySchemaIs(show: Printer, r: Reader, name: string, node: Fields, doc: Fields)
    requires Target(Obj(node)) == None
    ensures var s := PropertySchema(name, node);
            && Target(Obj(s)) == None && RequiredOf(s) == {} && Declared(s) == {name}
            && PropNode(s, doc, name) == node
            && ShapeOf(show, s, doc) == Shape({}, map[name := TypeOf(show, node)])
  {
    var s, props := PropertySchema(name, node), Only(name, Obj(node));
    GetOnly("properties", Obj(props), "properties");
    GetOnly("properties", Obj(props), "required");
    GetOnly("properties", Obj(props), "$ref");
    GetOnly(name, Obj(node), name);
    assert Resolve(Obj(node), doc) == node;
    assert RequiredOf(s) == {} && PropertiesOf(s) == props;
    hide Get, Resolve, TypeOf;
    ShapeIs(show, s, doc);
  }

  /** Two documents whose one property has the schemas `a` and `b`: the check is silent exactly when the signatures
      are equal, and they are compatible exactly when `b` accepts every value that `a` does. */
  lemma {:induction false} OneProperty(show: Printer, r: Reader, path: string, name: string, a: Fields, b: Fields)
    requires Target(Obj(a)) == None && Target(Obj(b)) == None
    ensures var d, e := BodyDocument(path, PropertySchema(name, a)), BodyDocument(path, PropertySchema(name, b));
            && (Silent(show, d, e) <==> TypeOf(show, a) == TypeOf(show, b)) && AllInSight(show, d, e)
            && (CompatibleFor(show, r, d, e) <==> forall v :: Accepts(show, r, a, d, v) ==> Accepts(show, r, b, e, v))
  {
    var x, y := PropertySchema(name, a), PropertySchema(name, b);
    var d, e := BodyDocument(path, x), BodyDocument(path, y);
    PropertySchemaIs(show, r, name, a, d);
    PropertySchemaIs(show, r, name, b, e);
    BodyDocuments(show, r, path, x, y);
    var c, c' := ContractOf(show, r, x, d), ContractOf(show, r, y, e);
    hide PropertySchema, BodyDocument, Silent, AllInSight, CompatibleFor, ShapeOf, ContractOf, TypeOf, Accepts,
      RequiredOf, Declared, PropNode, EveryMessageFits;
    MessagesFit(c, c');
    assert CanSend(c);
    assert name in c.accepts && name in c'.accepts;
    forall v
      ensures c.accepts[name](v) == Accepts(show, r, a, d, v) && c'.accepts[name](v) == Accepts(show, r, b, e, v)
    {
    }
  }

  /** Whatever a signature does not read may change: the check is silent, and the documents are compatible exactly
      when the new schema happens to accept what the old one does. */
  lemma {:induction false} UnreadPasses(show: Printer, r: Reader, path: string, name: string, a: Fields, b: Fields)
    requires Target(Obj(a)) == None && Target(Obj(b)) == None
    requires Get(a, "type") == Get(b, "type") && Get(a, "format") == Get(b, "format")
    requires Get(a, "enum") == Get(b, "enum") && Get(a, "$ref") == Get(b, "$ref")
    ensures var d, e := BodyDocument(path, PropertySchema(name, a)), BodyDocument(path, PropertySchema(name, b));
            && Silent(show, d, e) && AllInSight(show, d, e)
            && (CompatibleFor(show, r, d, e) <==>
                  forall v :: AcceptsRead(show, r, a, v) && r.demands(a, d, v) ==> r.demands(b, e, v))
  {
    OneProperty(show, r, path, name, a, b);
    SignatureAlike(show, a, b);
    forall v ensures AcceptsRead(show, r, a, v) <==> AcceptsRead(show, r, b, v) {
      ReadAlike(show, r, a, b, v);
    }
    var d, e := BodyDocument(path, PropertySchema(name, a)), BodyDocument(path, PropertySchema(name, b));
    forall v ensures (Accepts(show, r, a, d, v) ==> Accepts(show, r, b, e, v))
                <==> (AcceptsRead(show, r, a, v) && r.demands(a, d, v) ==> r.demands(b, e, v))
    {
      hide AcceptsRead, BodyDocument, PropertySchema, Get;
    }
    hide *;
  }

  lemma {:induction false} SignatureAlike(show: Printer, a: Fields, b: Fields)
    requires Get(a, "type") == Get(b, "type") && Get(a, "format") == Get(b, "format")
    requires Get(a, "enum") == Get(b, "enum") && Get(a, "$ref") == Get(b, "$ref")
    ensures TypeOf(show, a) == TypeOf(show, b)
  {
    hide Get, TypePart, FormatPart, EnumPart, RefPart, Joined;
  }

  lemma {:induction false} ReadAlike(show: Printer, r: Reader, a: Fields, b: Fields, v: Json)
    requires Get(a, "type") == Get(b, "type") && Get(a, "format") == Get(b, "format")
    requires Get(a, "enum") == Get(b, "enum") && Get(a, "$ref") == Get(b, "$ref")
    ensures AcceptsRead(show, r, a, v) <==> AcceptsRead(show, r, b, v)
  {
    assert TypeNames(show, a) == TypeNames(show, b) && EnumItems(a) == EnumItems(b);
    hide Get, TypeNames, EnumItems;
  }

  function ArrayOf(items: Json): Fields {
    [("type", Str("array")), ("items", items)]
  }

  lemma {:induction false} ArrayRead(items: Json)
    ensures var a := ArrayOf(items);
            && Get(a, "type") == Str("array") && Get(a, "format") == Null && Get(a, "enum") == Null
            && Get(a, "$ref") == Null && Target(Obj(a)) == None
  {
    var a := ArrayOf(items);
    assert a[1..] == [("items", items)] && a[1..][1..] == [];
    assert Get([], "format") == Null && Get([], "enum") == Null && Get([], "$ref") == Null;
    assert Get(a, "format") == Get(a[1..], "format") && Get(a, "enum") == Get(a[1..], "enum");
    assert Get(a, "$ref") == Get(a[1..], "$ref");
    assert Get(a[1..], "format") == Get(a[1..][1..], "format") && Get(a[1..], "enum") == Get(a[1..][1..], "enum");
    assert Get(a[1..], "$ref") == Get(a[1..][1..], "$ref");
  }

  /** The items of an array may change their type: the check is silent both ways, and whoever has an array that meets
      the old items and not the new ones is refused. */
  lemma {:induction false} ItemsPass(show: Printer, r: Reader, path: string, name: string, i: Json, j: Json, v: Json)
    ensures var d := BodyDocument(path, PropertySchema(name, ArrayOf(i)));
            var e := BodyDocument(path, PropertySchema(name, ArrayOf(j)));
            && Silent(show, d, e) && Silent(show, e, d) && AllInSight(show, d, e)
            && (r.hasType(show(Str("array")), v) && r.demands(ArrayOf(i), d, v) && !r.demands(ArrayOf(j), e, v)
                ==> !CompatibleFor(show, r, d, e))
  {
    ArrayRead(i);
    ArrayRead(j);
    UnreadPasses(show, r, path, name, ArrayOf(i), ArrayOf(j));
    UnreadPasses(show, r, path, name, ArrayOf(j), ArrayOf(i));
    var a := ArrayOf(i);
    assert TypeNames(show, a) == [show(Str("array"))];
    assert r.hasType(show(Str("array")), v) ==> r.hasType(TypeNames(show, a)[0], v);
    assert r.hasType(show(Str("array")), v) ==> AcceptsRead(show, r, a, v);
    hide Silent, AllInSight, CompatibleFor, BodyDocument, AcceptsRead;
  }

  function EnumNode(values: seq<Json>): Fields {
    Only("enum", Arr(values))
  }

  lemma {:induction false} EnumIs(show: Printer, r: Reader, values: seq<Json>, v: Json)
    ensures Target(Obj(EnumNode(values))) == None
    ensures TypeOf(show, EnumNode(values)) == "enum=" + SortedList(show, values, ",")
    ensures AcceptsRead(show, r, EnumNode(values), v) <==> v in values
    ensures Get(EnumNode(values), "enum") == Arr(values) && Get(EnumNode(values), "type") == Null
    ensures Get(EnumNode(values), "format") == Null && Get(EnumNode(values), "$ref") == Null
  {
    var leaf := EnumNode(values);
    GetOnly("enum", Arr(values), "type");
    GetOnly("enum", Arr(values), "format");
    GetOnly("enum", Arr(values), "enum");
    GetOnly("enum", Arr(values), "$ref");
    var x := SortedList(show, values, ",");
    SignatureWithEnum(show, leaf, x);
    assert [] + [] + ["enum=" + x] + [] == ["enum=" + x];
    hide SortedList, TypeOf;
  }

  /** A value with a comma in it is not told from the two values it is made of: the contracts that enumerate the one
      and the other pass in both directions, and neither accepts what the other does. */
  lemma {:induction false} CommaPasses(show: Printer, r: Reader, path: string, name: string, a: string, b: string)
    requires show(Str(a)) == a && show(Str(b)) == b && show(Str(a + "," + b)) == a + "," + b && StringLe(a, b)
    requires IsShallow(r)
    ensures var d := BodyDocument(path, PropertySchema(name, EnumNode([Str(a + "," + b)])));
            var e := BodyDocument(path, PropertySchema(name, EnumNode([Str(a), Str(b)])));
            && Silent(show, d, e) && Silent(show, e, d) && AllInSight(show, d, e) && AllInSight(show, e, d)
            && !CompatibleFor(show, r, d, e) && !CompatibleFor(show, r, e, d)
  {
    var whole := Str(a + "," + b);
    var one, two := [whole], [Str(a), Str(b)];
    var d := BodyDocument(path, PropertySchema(name, EnumNode(one)));
    var e := BodyDocument(path, PropertySchema(name, EnumNode(two)));
    CommaIsNotSeen(show, Str(a), Str(b), whole);
    EnumIs(show, r, one, whole);
    EnumIs(show, r, two, whole);
    EnumIs(show, r, one, Str(a));
    EnumIs(show, r, two, Str(a));
    assert |a + "," + b| == |a| + 1 + |b|;
    assert whole in one && whole !in two && Str(a) in two && Str(a) !in one;
    OneProperty(show, r, path, name, EnumNode(one), EnumNode(two));
    OneProperty(show, r, path, name, EnumNode(two), EnumNode(one));
    hide Silent, AllInSight, CompatibleFor, BodyDocument, PropertySchema, EnumNode, AcceptsRead, TypeOf, SortedList;
    assert Accepts(show, r, EnumNode(one), d, whole) && !Accepts(show, r, EnumNode(two), e, whole);
    assert Accepts(show, r, EnumNode(two), e, Str(a)) && !Accepts(show, r, EnumNode(one), d, Str(a));
  }

  /** Nor are two values that print alike, such as a number and its digits. */
  lemma {:induction false} PrintedAlikePasses(show: Printer, r: Reader, path: string, name: string, a: Json, b: Json)
    requires show(a) == show(b) && a != b && IsShallow(r)
    ensures var d := BodyDocument(path, PropertySchema(name, EnumNode([a])));
            var e := BodyDocument(path, PropertySchema(name, EnumNode([b])));
            Silent(show, d, e) && AllInSight(show, d, e) && !CompatibleFor(show, r, d, e)
  {
    var d := BodyDocument(path, PropertySchema(name, EnumNode([a])));
    var e := BodyDocument(path, PropertySchema(name, EnumNode([b])));
    assert Printed(show, [a]) == [show(a)] && Printed(show, [b]) == [show(b)];
    assert SortedList(show, [a], ",") == SortedList(show, [b], ",");
    EnumIs(show, r, [a], a);
    EnumIs(show, r, [b], a);
    OneProperty(show, r, path, name, EnumNode([a]), EnumNode([b]));
    hide Silent, AllInSight, CompatibleFor, BodyDocument, PropertySchema, EnumNode, AcceptsRead, TypeOf, SortedList;
    assert Accepts(show, r, EnumNode([a]), d, a) && !Accepts(show, r, EnumNode([b]), e, a);
  }

  /** The check is stricter than clients need: a request enumeration that only grows is reported, and every old
      request is still accepted. */
  lemma {:induction false} GrowthIsReported(
      show: Printer, r: Reader, path: string, name: string, values: seq<Json>, v: Json)
    requires values != [] && IsShallow(r)
    ensures var d := BodyDocument(path, PropertySchema(name, EnumNode(values)));
            var e := BodyDocument(path, PropertySchema(name, EnumNode(values + [v])));
            !Silent(show, d, e) && CompatibleFor(show, r, d, e)
  {
    var more := values + [v];
    var d := BodyDocument(path, PropertySchema(name, EnumNode(values)));
    var e := BodyDocument(path, PropertySchema(name, EnumNode(more)));
    EnumIs(show, r, values, v);
    EnumIs(show, r, more, v);
    OneProperty(show, r, path, name, EnumNode(values), EnumNode(more));
    AddedValueIsSeen(show, EnumNode(values), EnumNode(more), v);
    forall w | Accepts(show, r, EnumNode(values), d, w) ensures Accepts(show, r, EnumNode(more), e, w) {
      EnumIs(show, r, values, w);
      EnumIs(show, r, more, w);
      hide EnumNode, AcceptsRead;
    }
    hide Silent, CompatibleFor, BodyDocument, PropertySchema, EnumNode, Accepts, TypeOf;
  }

  // --------------------------------------------------------------------------------------------
  // Names
  // --------------------------------------------------------------------------------------------

  function ParameterOperation(name: Json, location: Json, required: bool): Fields {
    Only("parameters", Arr([Obj([("name", name), ("in", location), ("required", Bool(required))])]))
  }

  lemma {:induction false} GetThree(name: Json, location: Json, required: Json)
    ensures var p := [("name", name), ("in", location), ("required", required)];
            Get(p, "name") == name && Get(p, "in") == location && Get(p, "required") == required
  {
    var p := [("name", name), ("in", location), ("required", required)];
    assert p[1..] == [("in", location), ("required", required)];
    assert p[1..][1..] == [("required", required)];
    assert Get(p[1..], "required") == Get(p[1..][1..], "required") == required;
  }

  lemma {:induction false} ParameterInterface(show: Printer, name: Json, location: Json, required: bool, doc: Fields)
    ensures InterfaceOf(show, ParameterOperation(name, location, required), doc)
         == Interface(Shape({}, map[]), {}, map[], {(name, location)}, if required then {(name, location)} else {})
  {
    var p := Obj([("name", name), ("in", location), ("required", Bool(required))]);
    var op := ParameterOperation(name, location, required);
    GetThree(name, location, Bool(required));
    GetOnly("parameters", Arr([p]), "parameters");
    GetOnly("parameters", Arr([p]), "requestBody");
    GetOnly("parameters", Arr([p]), "responses");
    hide ShapeOf, Get;
    assert Get([], "content") == Null && Get([], "application/json") == Null && Get([], "schema") == Null;
    NullResolves(doc);
    EmptyShape(show, doc);
    InterfaceParts(show, op, doc);
    assert Keys([]) == {};
  }

  /** An optional parameter that becomes required breaks every client that leaves it out, and the check is
      silent about it. */
  lemma {:induction false} OptionalBecomesRequired(show: Printer, r: Reader, path: string, name: Json, location: Json)
    ensures var d := OneOperationDocument(path, "get", ParameterOperation(name, location, false));
            var e := OneOperationDocument(path, "get", ParameterOperation(name, location, true));
            Silent(show, d, e) && !CompatibleFor(show, r, d, e)
  {
    var was, is_ := ParameterOperation(name, location, false), ParameterOperation(name, location, true);
    var d, e := OneOperationDocument(path, "get", was), OneOperationDocument(path, "get", is_);
    OneOperationSilent(show, path, "get", was, is_);
    OneOperationWorks(show, r, path, "get", was, is_);
    ParameterInterface(show, name, location, false, d);
    ParameterInterface(show, name, location, true, e);
    var i, j := InterfaceOf(show, was, d), InterfaceOf(show, is_, e);
    hide ParameterOperation, OneOperationDocument, InterfaceOf, CompatibleFor, Silent, OfBodies;
    SelectionsAccepted(i, j);
    assert (name, location) in j.requiredParameters && (name, location) !in i.requiredParameters;
  }

  function RequiredOnly(name: string): Fields {
    Only("required", Arr([Str(name)]))
  }

  lemma {:induction false} RequiredOnlyIs(show: Printer, name: string, doc: Fields)
    ensures var s := RequiredOnly(name);
            && Target(Obj(s)) == None && RequiredOf(s) == {name} && Declared(s) == {}
            && ShapeOf(show, s, doc) == Shape({name}, map[])
  {
    var s := RequiredOnly(name);
    GetOnly("required", Arr([Str(name)]), "required");
    GetOnly("required", Arr([Str(name)]), "properties");
    GetOnly("required", Arr([Str(name)]), "$ref");
    assert ItemsOf(Get(s, "required")) == [Str(name)] && PropertiesOf(s) == [];
    hide Get;
    assert Keys([]) == {};
    ShapeIs(show, s, doc);
  }

  function RequiredAndDeclared(name: string, node: Fields): Fields {
    [("required", Arr([Str(name)])), ("properties", Obj(Only(name, Obj(node))))]
  }

  lemma {:induction false} RequiredAndDeclaredIs(show: Printer, name: string, node: Fields, doc: Fields)
    requires Target(Obj(node)) == None
    ensures var s := RequiredAndDeclared(name, node);
            && Target(Obj(s)) == None && RequiredOf(s) == {name} && Declared(s) == {name}
            && PropNode(s, doc, name) == node
            && ShapeOf(show, s, doc) == Shape({name}, map[name := TypeOf(show, node)])
  {
    var s, props := RequiredAndDeclared(name, node), Only(name, Obj(node));
    assert s[1..] == [("properties", Obj(props))] && s[1..][1..] == [];
    assert Get(s, "required") == Arr([Str(name)]);
    assert Get(s, "properties") == Get(s[1..], "properties") == Obj(props);
    assert Get(s, "$ref") == Get(s[1..], "$ref") == Get(s[1..][1..], "$ref") == Null;
    GetOnly(name, Obj(node), name);
    assert Resolve(Obj(node), doc) == node;
    assert ItemsOf(Get(s, "required")) == [Str(name)] && PropertiesOf(s) == props;
    hide Get, Resolve, TypeOf;
    ShapeIs(show, s, doc);
  }

  /** A name that the old request requires without declaring it, and the new one declares: nothing is found, and a
      client whose value is not accepted is refused. */
  lemma {:induction false} UndeclaredRequestName(
      show: Printer, r: Reader, path: string, name: string, node: Fields, v: Json)
    requires Target(Obj(node)) == None
    ensures var d := BodyDocument(path, RequiredOnly(name));
            var e := BodyDocument(path, RequiredAndDeclared(name, node));
            Silent(show, d, e) && (!Accepts(show, r, node, e, v) ==> !CompatibleFor(show, r, d, e))
  {
    var x, y := RequiredOnly(name), RequiredAndDeclared(name, node);
    var d, e := BodyDocument(path, x), BodyDocument(path, y);
    RequiredOnlyIs(show, name, d);
    RequiredAndDeclaredIs(show, name, node, e);
    BodyDocuments(show, r, path, x, y);
    var c, c' := ContractOf(show, r, x, d), ContractOf(show, r, y, e);
    hide RequiredOnly, RequiredAndDeclared, BodyDocument, Silent, AllInSight, CompatibleFor, ShapeOf, ContractOf,
      TypeOf, Accepts, RequiredOf, Declared, PropNode, EveryMessageFits;
    MessagesFit(c, c');
    assert CanSend(c);
    assert name in c.required && name !in c.accepts && name in c'.accepts;
    assert c'.accepts[name](v) == Accepts(show, r, node, e, v);
  }

  function ResponseOperation(schema: Fields): Fields {
    var media := Only("schema", Obj(schema));
    Only("responses", Obj(Only("200", Obj(Only("content", Obj(Only("application/json", Obj(media))))))))
  }

  lemma {:induction false} ResponseOf(schema: Fields, doc: Fields)
    requires Target(Obj(schema)) == None && schema != []
    ensures var op := ResponseOperation(schema);
            && ResponseSchema(op, doc, "200") == schema && Keys(Responses(op)) == {"200"}
            && BodySchema(op, doc) == [] && Parameters(op) == {} && RequiredParameters(op) == {}
  {
    var media := Obj(Only("schema", Obj(schema)));
    var content := Only("application/json", media);
    var answer := Only("content", Obj(content));
    var answers := Only("200", Obj(answer));
    GetOnly("responses", Obj(answers), "responses");
    GetOnly("responses", Obj(answers), "requestBody");
    GetOnly("responses", Obj(answers), "parameters");
    GetOnly("200", Obj(answer), "200");
    GetOnly("content", Obj(content), "content");
    GetOnly("schema", Obj(schema), "schema");
    assert content[0].1 == media;
    assert FirstSchema(content) == Obj(schema);
    assert Get([], "content") == Null && Get([], "application/json") == Null && Get([], "schema") == Null;
    NullResolves(doc);
    assert Resolve(Obj(schema), doc) == schema;
    hide Get, Resolve, FirstSchema;
  }

  /** A name that the old response guarantees without declaring it, and the new one does not mention: nothing is
      found, and the guarantee is gone. */
  lemma {:induction false} UndeclaredResponseName(show: Printer, r: Reader, path: string, name: string)
    ensures var d := OneOperationDocument(path, "get", ResponseOperation(RequiredOnly(name)));
            var e := OneOperationDocument(path, "get", ResponseOperation(Only("type", Str("object"))));
            Silent(show, d, e) && !CompatibleFor(show, r, d, e)
  {
    var x, y := RequiredOnly(name), Only("type", Str("object"));
    var was, is_ := ResponseOperation(x), ResponseOperation(y);
    var d, e := OneOperationDocument(path, "get", was), OneOperationDocument(path, "get", is_);
    var op := Operation(path, "get");
    RequiredOnlyIs(show, name, d);
    PlainObjectIs(show, e);
    OneOperationSilent(show, path, "get", was, is_);
    OneOperationWorks(show, r, path, "get", was, is_);
    ResponseIs(show, path, x);
    ResponseIs(show, path, y);
    hide OneOperationDocument, ResponseOperation, InterfaceOf, Silent, CompatibleFor, AllInSight, Operations, At,
      RequestNode, ResponseNode, Statuses, ShapeOf;
    GuaranteeGone(show, r, d, e, op, name);
  }

  lemma {:induction false} ResponseIs(show: Printer, path: string, schema: Fields)
    requires Target(Obj(schema)) == None && schema != []
    ensures var d, op := OneOperationDocument(path, "get", ResponseOperation(schema)), Operation(path, "get");
            && op in Operations(d) && ResponseNode(d, op, "200") == schema && Statuses(d, op) == {"200"}
            && At(show, d, op) == Interface(Shape({}, map[]), {"200"}, map["200" := ShapeOf(show, schema, d)], {}, {})
  {
    var fields := ResponseOperation(schema);
    var d, op := OneOperationDocument(path, "get", fields), Operation(path, "get");
    OneOperationOnly(path, "get", fields);
    ResponseOf(schema, d);
    InterfaceParts(show, fields, d);
    ResponseParts(show, fields, d);
    EmptyShape(show, d);
    hide OneOperationDocument, ResponseOperation, InterfaceOf, BodySchema, ResponseSchema, Responses, Parameters,
      RequiredParameters, ShapeOf, Operations, OperationAt, ResponseShapes;
  }

  lemma {:induction false} GuaranteeGone(show: Printer, r: Reader, d: Fields, e: Fields, op: Operation, name: string)
    requires op in Operations(d) && op in Operations(e) && Statuses(d, op) == {"200"} == Statuses(e, op)
    requires At(show, d, op) == Interface(Shape({}, map[]), {"200"}, map["200" := Shape({name}, map[])], {}, {})
    requires At(show, e, op) == Interface(Shape({}, map[]), {"200"}, map["200" := Shape({}, map[])], {}, {})
    requires RequiredOf(ResponseNode(d, op, "200")) == {name} && RequiredOf(ResponseNode(e, op, "200")) == {}
    ensures Kept(At(show, d, op), At(show, e, op)) && !Works(show, r, d, e, op)
  {
    hide *;
    assert name in RequiredOf(ResponseNode(d, op, "200"));
    NothingFits(show, r, ResponseNode(e, op, "200"), e, ResponseNode(d, op, "200"), d);
    UndeclaredIsKept(name);
    OkIsSuccess();
    UnreadResponse(show, r, d, e, op, "200");
  }

  lemma {:induction false} OkIsSuccess()
    ensures IsSuccess("200")
  {
  }

  lemma {:induction false} UndeclaredIsKept(name: string)
    ensures Kept(Interface(Shape({}, map[]), {"200"}, map["200" := Shape({name}, map[])], {}, {}),
                 Interface(Shape({}, map[]), {"200"}, map["200" := Shape({}, map[])], {}, {}))
  {
    hide IsSuccess;
  }

  lemma {:induction false} UnreadResponse(
      show: Printer, r: Reader, d: Fields, e: Fields, op: Operation, status: string)
    requires op in Operations(d) && op in Operations(e)
    requires status in Statuses(d, op) && status in Statuses(e, op) && IsSuccess(status)
    requires !EveryMessageFits(ContractOf(show, r, ResponseNode(e, op, status), e),
                               ContractOf(show, r, ResponseNode(d, op, status), d))
    ensures !Works(show, r, d, e, op)
  {
    hide At, RequestNode, ResponseNode, Statuses, Operations, ContractOf, EveryMessageFits, EverySelectionAccepted,
      IsSuccess;
  }

  lemma {:induction false} NothingFits(show: Printer, r: Reader, y: Fields, e: Fields, x: Fields, d: Fields)
    requires RequiredOf(y) == {} && RequiredOf(x) != {}
    ensures !EveryMessageFits(ContractOf(show, r, y, e), ContractOf(show, r, x, d))
  {
    var c, c' := ContractOf(show, r, y, e), ContractOf(show, r, x, d);
    hide ContractOf, RequiredOf, Declared, Accepts;
    var empty: Message := map[];
    assert Sends(c, empty);
    var n :| n in RequiredOf(x);
    assert n !in empty && n in c'.required;
    assert !Fits(c', empty);
  }

  lemma {:induction false} PlainObjectIs(show: Printer, doc: Fields)
    ensures var s := Only("type", Str("object"));
            && Target(Obj(s)) == None && RequiredOf(s) == {} && Declared(s) == {}
            && ShapeOf(show, s, doc) == Shape({}, map[])
  {
    var s := Only("type", Str("object"));
    GetOnly("type", Str("object"), "required");
    GetOnly("type", Str("object"), "properties");
    GetOnly("type", Str("object"), "$ref");
    assert RequiredOf(s) == {} && PropertiesOf(s) == [];
    hide Get;
    assert Keys([]) == {};
    ShapeIs(show, s, doc);
  }
}
