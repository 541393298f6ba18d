/** The contract compatibility check of `scripts/check-openapi-compat.py`. */
module OpenApi {
  import opened Wrappers
  import opened Signatures

  // --------------------------------------------------------------------------------------------
  // Comparing two object schemas
  // --------------------------------------------------------------------------------------------

  /** What the check reads of an object schema: the required names, and the signature of each property. */
  datatype Shape = Shape(required: set<string>, props: map<string, string>)

  function RequiredOf(node: Fields): set<string> {
    set v | v in ItemsOf(Get(node, "required")) && v.Str? :: v.s
  }

  function PropertiesOf(node: Fields): Fields {
    FieldsOf(Get(node, "properties"))
  }

  function ShapeOf(show: Printer, node: Fields, doc: Fields): Shape {
    Shape(RequiredOf(node),
          map name | name in Keys(PropertiesOf(node)) :: TypeOf(show, Resolve(Get(PropertiesOf(node), name), doc)))
  }

  datatype Operation = Operation(path: string, method_: string)

  datatype Site = Request(op: Operation) | Response(op: Operation, status: string)

  datatype Finding =
    | OperationRemoved(op: Operation)
    | ResponseRemoved(op: Operation, status: string)
    | PropertyRemoved(site: Site, name: string)
    | TypeChanged(site: Site, name: string, was: string, is_: string)
    | BecameRequired(site: Site, name: string)
    | NoLongerGuaranteed(site: Site, name: string)
    | ParameterRequired(op: Operation, name_: Json, location: Json)
    | SchemaRemoved(name: string)

  function PropertyFinding(site: Site, old_: Shape, new_: Shape, name: string): Option<Finding>
    requires name in old_.props
  {
    if name !in new_.props then
      if site.Response? || name in old_.required then Some(PropertyRemoved(site, name)) else None
    else if old_.props[name] != new_.props[name] then
      Some(TypeChanged(site, name, old_.props[name], new_.props[name]))
    else None
  }

  function RequiredFinding(site: Site, old_: Shape, new_: Shape, name: string): Option<Finding> {
    if site.Request? then
      if name in new_.required && name !in old_.required then Some(BecameRequired(site, name)) else None
    else
      if name in old_.required && name !in new_.required && name in new_.props then Some(NoLongerGuaranteed(site, name))
      else None
  }

  predicate PropertyAmong(site: Site, old_: Shape, new_: Shape, names: set<string>, f: Finding)
    requires names <= old_.props.Keys
  {
    (f.PropertyRemoved? || f.TypeChanged?) && f.name in names && PropertyFinding(site, old_, new_, f.name) == Some(f)
  }

  predicate RequiredAmong(site: Site, old_: Shape, new_: Shape, names: set<string>, f: Finding) {
    && (f.BecameRequired? || f.NoLongerGuaranteed?) && f.name in names
    && RequiredFinding(site, old_, new_, f.name) == Some(f)
  }

  /** The findings of `compare_object`. */
  predicate Compared(site: Site, old_: Shape, new_: Shape, f: Finding) {
    || PropertyAmong(site, old_, new_, old_.props.Keys, f)
    || RequiredAmong(site, old_, new_, old_.required + new_.required, f)
  }

  lemma {:induction false} OneMoreProperty(site: Site, old_: Shape, new_: Shape, names: set<string>, name: string)
    requires names <= old_.props.Keys && name in old_.props
    ensures forall f :: PropertyAmong(site, old_, new_, names + {name}, f) <==>
                          || PropertyAmong(site, old_, new_, names, f)
                          || PropertyFinding(site, old_, new_, name) == Some(f)
    ensures PropertyFinding(site, old_, new_, name) ==
            if name !in new_.props then
              (if site.Response? || name in old_.required then Some(PropertyRemoved(site, name)) else None)
            else if old_.props[name] != new_.props[name] then
              Some(TypeChanged(site, name, old_.props[name], new_.props[name]))
            else None
  {
  }

  lemma {:induction false} NoProperty(site: Site, old_: Shape, new_: Shape)
    ensures forall f :: !PropertyAmong(site, old_, new_, {}, f)
  {
  }

  method CompareProperties(show: Printer, site: Site, old_: Fields, new_: Fields, oldDoc: Fields, newDoc: Fields,
                           before: seq<Finding>) returns (findings: seq<Finding>)
    ensures var was := ShapeOf(show, old_, oldDoc);
            forall f :: f in findings <==>
              f in before || PropertyAmong(site, was, ShapeOf(show, new_, newDoc), was.props.Keys, f)
  {
    findings := before;
    var oldProps, newProps := PropertiesOf(old_), PropertiesOf(new_);
    ghost var was, is_ := ShapeOf(show, old_, oldDoc), ShapeOf(show, new_, newDoc);
    var todo := Keys(oldProps);
    hide *;
    ShapeParts(show, old_, oldDoc);
    ShapeParts(show, new_, newDoc);
    ghost var done: set<string> := {};
    NoProperty(site, was, is_);
    while todo != {}
      invariant done == was.props.Keys - todo && todo <= was.props.Keys
      invariant forall f :: f in findings <==> f in before || PropertyAmong(site, was, is_, done, f)
    {
      var name :| name in todo;
      OneMoreProperty(site, was, is_, done, name);
      todo := todo - {name};
      done := done + {name};
      if name !in Keys(newProps) {
        if site.Response? || name in RequiredOf(old_) {
          findings := findings + [PropertyRemoved(site, name)];
        }
      } else {
        var oldType := TypeOf(show, Resolve(Get(oldProps, name), oldDoc));
        var newType := TypeOf(show, Resolve(Get(newProps, name), newDoc));
        if oldType != newType {
          findings := findings + [TypeChanged(site, name, oldType, newType)];
        }
      }
    }
    assert done == was.props.Keys;
  }

  lemma {:induction false} ShapeParts(show: Printer, node: Fields, doc: Fields)
    ensures var shape, props := ShapeOf(show, node, doc), PropertiesOf(node);
            && shape.required == RequiredOf(node) && shape.props.Keys == Keys(props)
            && forall n :: n in shape.props ==> shape.props[n] == TypeOf(show, Resolve(Get(props, n), doc))
  {
    hide RequiredOf, PropertiesOf, TypeOf, Resolve, Get;
  }

  method CompareRequired(show: Printer, site: Site, old_: Fields, new_: Fields, oldDoc: Fields, newDoc: Fields,
                         before: seq<Finding>) returns (findings: seq<Finding>)
    ensures var was, is_ := ShapeOf(show, old_, oldDoc), ShapeOf(show, new_, newDoc);
            forall f :: f in findings <==> f in before || RequiredAmong(site, was, is_, was.required + is_.required, f)
  {
    findings := before;
    var newProps := PropertiesOf(new_);
    ghost var was, is_ := ShapeOf(show, old_, oldDoc), ShapeOf(show, new_, newDoc);
    ShapeParts(show, old_, oldDoc);
    ShapeParts(show, new_, newDoc);
    hide *;
    var all := if site.Request? then RequiredOf(new_) - RequiredOf(old_) else RequiredOf(old_) - RequiredOf(new_);
    var todo := all;
    ghost var done: set<string> := {};
    NoRequired(site, was, is_);
    while todo != {}
      invariant done == all - todo && todo <= all
      invariant forall f :: f in findings <==> f in before || RequiredAmong(site, was, is_, done, f)
    {
      var name :| name in todo;
      OneMoreRequired(site, was, is_, done, name);
      todo := todo - {name};
      done := done + {name};
      if site.Request? {
        findings := findings + [BecameRequired(site, name)];
      } else if name in Keys(newProps) {
        findings := findings + [NoLongerGuaranteed(site, name)];
      }
    }
    assert done == all;
    OnlyThese(site, was, is_, all);
  }

  lemma {:induction false} NoRequired(site: Site, old_: Shape, new_: Shape)
    ensures forall f :: !RequiredAmong(site, old_, new_, {}, f)
  {
  }

  lemma {:induction false} OneMoreRequired(site: Site, old_: Shape, new_: Shape, names: set<string>, name: string)
    ensures forall f :: RequiredAmong(site, old_, new_, names + {name}, f) <==>
                          || RequiredAmong(site, old_, new_, names, f)
                          || RequiredFinding(site, old_, new_, name) == Some(f)
    ensures RequiredFinding(site, old_, new_, name) ==
            if site.Request? then
              if name in new_.required && name !in old_.required then Some(BecameRequired(site, name)) else None
            else
              if name in old_.required && name !in new_.required && name in new_.props
              then Some(NoLongerGuaranteed(site, name)) else None
  {
  }

  /** Only a difference of the required names is found. */
  lemma {:induction false} OnlyThese(site: Site, old_: Shape, new_: Shape, all: set<string>)
    requires all == if site.Request? then new_.required - old_.required else old_.required - new_.required
    ensures forall f :: RequiredAmong(site, old_, new_, old_.required + new_.required, f)
                   <==> RequiredAmong(site, old_, new_, all, f)
  {
  }

  /** `compare_object`. */
  method CompareObject(show: Printer, site: Site, old_: Fields, new_: Fields, oldDoc: Fields, newDoc: Fields,
                       before: seq<Finding>) returns (findings: seq<Finding>)
    ensures forall f :: f in findings <==>
              f in before || Compared(site, ShapeOf(show, old_, oldDoc), ShapeOf(show, new_, newDoc), f)
  {
    hide PropertyAmong, RequiredAmong, ShapeOf;
    findings := CompareProperties(show, site, old_, new_, oldDoc, newDoc, before);
    findings := CompareRequired(show, site, old_, new_, oldDoc, newDoc, findings);
  }

  // --------------------------------------------------------------------------------------------
  // Comparing two documents
  // --------------------------------------------------------------------------------------------

  function Methods(): set<string> { {"get", "put", "post", "delete", "options", "head", "patch", "trace"} }

  function OperationAt(doc: Fields, op: Operation): Option<Fields> {
    match Get(FieldsOf(Get(doc, "paths")), op.path)
    case Obj(item) =>
      if op.method_ !in Methods() then None
      else
        (match Get(item, op.method_)
         case Obj(fields) => Some(fields)
         case _ => None)
    case _ => None
  }

  /** `operations`. */
  function Operations(doc: Fields): (ops: set<Operation>)
    ensures forall op :: op in ops <==> OperationAt(doc, op).Some?
  {
    set path, m | path in Keys(FieldsOf(Get(doc, "paths"))) && m in Methods()
                  && OperationAt(doc, Operation(path, m)).Some?
      :: Operation(path, m)
  }

  function BodySchema(op: Fields, doc: Fields): Fields {
    var content := FieldsOf(Get(FieldsOf(Get(op, "requestBody")), "content"));
    Resolve(Get(FieldsOf(Get(content, "application/json")), "schema"), doc)
  }

  function FirstSchema(content: Fields): Json {
    if content == [] then Null
    else
      var schema := Get(FieldsOf(content[0].1), "schema");
      if Truthy(schema) then schema else FirstSchema(content[1..])
  }

  function Responses(op: Fields): Fields {
    FieldsOf(Get(op, "responses"))
  }

  function ResponseSchema(op: Fields, doc: Fields, status: string): Fields {
    Resolve(FirstSchema(FieldsOf(Get(FieldsOf(Get(Responses(op), status)), "content"))), doc)
  }

  function Parameters(op: Fields): set<(Json, Json)> {
    set p | p in ItemsOf(Get(op, "parameters")) && p.Obj? :: (Get(p.fields, "name"), Get(p.fields, "in"))
  }

  function RequiredParameters(op: Fields): set<(Json, Json)> {
    set p | p in ItemsOf(Get(op, "parameters")) && p.Obj? && Truthy(Get(p.fields, "required"))
      :: (Get(p.fields, "name"), Get(p.fields, "in"))
  }

  predicate IsSuccess(status: string) {
    status != "" && status[0] == '2'
  }

  /** What the check reads of an operation. */
  datatype Interface = Interface(request: Shape, statuses: set<string>, responses: map<string, Shape>,
                                 parameters: set<(Json, Json)>, requiredParameters: set<(Json, Json)>)

  function InterfaceOf(show: Printer, op: Fields, doc: Fields): (i: Interface)
    ensures i.responses.Keys == i.statuses
    ensures i.requiredParameters <= i.parameters
  {
    Interface(ShapeOf(show, BodySchema(op, doc), doc), Keys(Responses(op)),
              ResponseShapes(show, op, doc), Parameters(op), RequiredParameters(op))
  }

  /** The findings about one operation that both documents have. */
  predicate OperationFinding(op: Operation, old_: Interface, new_: Interface, f: Finding)
    requires old_.responses.Keys == old_.statuses && new_.responses.Keys == new_.statuses
  {
    match f
    case OperationRemoved(_) => false
    case SchemaRemoved(_) => false
    case ResponseRemoved(at, status) => at == op && status in old_.statuses - new_.statuses
    case ParameterRequired(at, name, location) =>
      at == op && (name, location) in new_.requiredParameters - old_.parameters
    case _ => SiteFinding(op, old_, new_, f.site, f)
  }

  predicate SiteFinding(op: Operation, old_: Interface, new_: Interface, site: Site, f: Finding)
    requires old_.responses.Keys == old_.statuses && new_.responses.Keys == new_.statuses
  {
    match site
    case Request(at) => at == op && Compared(site, old_.request, new_.request, f)
    case Response(at, status) =>
      at == op && status in old_.statuses * new_.statuses && IsSuccess(status)
      && Compared(site, old_.responses[status], new_.responses[status], f)
  }

  function OperationOf(f: Finding): Option<Operation> {
    match f
    case SchemaRemoved(_) => None
    case OperationRemoved(op) => Some(op)
    case ResponseRemoved(op, _) => Some(op)
    case ParameterRequired(op, _, _) => Some(op)
    case _ => Some(f.site.op)
  }

  /** The findings of `check`. */
  predicate Found(show: Printer, old_: Fields, new_: Fields, f: Finding) {
    match OperationOf(f)
    case None => f.name in Keys(Schemas(old_)) - Keys(Schemas(new_))
    case Some(op) => FoundAt(show, old_, new_, op, f)
  }

  predicate FoundAt(show: Printer, old_: Fields, new_: Fields, op: Operation, f: Finding) {
    match OperationAt(old_, op)
    case None => false
    case Some(was) =>
      match OperationAt(new_, op)
      case None => f == OperationRemoved(op)
      case Some(is_) => OperationFinding(op, InterfaceOf(show, was, old_), InterfaceOf(show, is_, new_), f)
  }

  method ReportResponses(op: Operation, was: set<string>, is_: set<string>, before: seq<Finding>)
    returns (findings: seq<Finding>)
    ensures forall f :: f in findings <==> f in before || (f.ResponseRemoved? && f.op == op && f.status in was - is_)
  {
    findings := before;
    var removed := was - is_;
    while removed != {}
      invariant removed <= was - is_
      invariant forall f :: f in findings <==>
                  f in before || (f.ResponseRemoved? && f.op == op && f.status in was - is_ - removed)
    {
      var status :| status in removed;
      removed := removed - {status};
      findings := findings + [ResponseRemoved(op, status)];
    }
  }

  method ReportParameters(op: Operation, added: set<(Json, Json)>,
                          before: seq<Finding>) returns (findings: seq<Finding>)
    ensures forall f :: f in findings <==>
              f in before || (f.ParameterRequired? && f.op == op && (f.name_, f.location) in added)
  {
    findings := before;
    var todo := added;
    while todo != {}
      invariant todo <= added
      invariant forall f :: f in findings <==>
                  f in before || (f.ParameterRequired? && f.op == op && (f.name_, f.location) in added - todo)
    {
      var p :| p in todo;
      todo := todo - {p};
      findings := findings + [ParameterRequired(op, p.0, p.1)];
    }
  }

  predicate ResponseAmong(op: Operation, old_: map<string, Shape>, new_: map<string, Shape>, statuses: set<string>,
                          f: Finding)
    requires statuses <= old_.Keys && statuses <= new_.Keys
  {
    && AboutProperty(f) && f.site.Response? && f.site.op == op && f.site.status in statuses && IsSuccess(f.site.status)
    && Compared(f.site, old_[f.site.status], new_[f.site.status], f)
  }

  predicate AboutProperty(f: Finding) {
    f.PropertyRemoved? || f.TypeChanged? || f.BecameRequired? || f.NoLongerGuaranteed?
  }

  lemma {:induction false} ComparedSite(site: Site, old_: Shape, new_: Shape, f: Finding)
    ensures Compared(site, old_, new_, f) ==> AboutProperty(f) && f.site == site
  {
  }

  function ResponseShapes(show: Printer, op: Fields, doc: Fields): map<string, Shape> {
    map status | status in Keys(Responses(op)) :: ShapeOf(show, ResponseSchema(op, doc, status), doc)
  }

  method CompareResponses(show: Printer, op: Operation, was: Fields, is_: Fields, oldDoc: Fields, newDoc: Fields,
                          before: seq<Finding>) returns (findings: seq<Finding>)
    ensures ResponseShapes(show, was, oldDoc).Keys == Keys(Responses(was))
    ensures ResponseShapes(show, is_, newDoc).Keys == Keys(Responses(is_))
    ensures forall f :: f in findings <==>
              f in before || ResponseAmong(op, ResponseShapes(show, was, oldDoc), ResponseShapes(show, is_, newDoc),
                                           Keys(Responses(was)) * Keys(Responses(is_)), f)
  {
    findings := before;
    var all := Keys(Responses(was)) * Keys(Responses(is_));
    ghost var old_, new_ := ResponseShapes(show, was, oldDoc), ResponseShapes(show, is_, newDoc);
    hide *;
    ResponseParts(show, was, oldDoc);
    ResponseParts(show, is_, newDoc);
    var shared := all;
    ghost var done: set<string> := {};
    NoResponse(op, old_, new_);
    while shared != {}
      invariant done == all - shared && shared <= all
      invariant forall f :: f in findings <==> f in before || ResponseAmong(op, old_, new_, done, f)
    {
      var status :| status in shared;
      OneMoreResponse(op, old_, new_, done, status);
      shared := shared - {status};
      done := done + {status};
      if IsSuccess(status) {
        findings := CompareObject(show, Response(op, status), ResponseSchema(was, oldDoc, status),
                                  ResponseSchema(is_, newDoc, status), oldDoc, newDoc, findings);
      }
    }
    assert done == all;
  }

  lemma {:induction false} ResponseParts(show: Printer, op: Fields, doc: Fields)
    ensures var shapes := ResponseShapes(show, op, doc);
            && shapes.Keys == Keys(Responses(op))
            && forall s :: s in shapes ==> shapes[s] == ShapeOf(show, ResponseSchema(op, doc, s), doc)
  {
    hide Keys, Responses, ShapeOf, ResponseSchema;
  }

  lemma {:induction false} NoResponse(op: Operation, old_: map<string, Shape>, new_: map<string, Shape>)
    ensures forall f :: !ResponseAmong(op, old_, new_, {}, f)
  {
  }

  lemma {:induction false} OneMoreResponse(op: Operation, old_: map<string, Shape>, new_: map<string, Shape>,
                                           statuses: set<string>, status: string)
    requires statuses <= old_.Keys && statuses <= new_.Keys && status in old_ && status in new_
    ensures forall f :: ResponseAmong(op, old_, new_, statuses + {status}, f) <==>
                          || ResponseAmong(op, old_, new_, statuses, f)
                          || (IsSuccess(status) && Compared(Response(op, status), old_[status], new_[status], f))
  {
    forall f ensures Compared(Response(op, status), old_[status], new_[status], f) ==>
                       AboutProperty(f) && f.site == Response(op, status)
    {
      ComparedSite(Response(op, status), old_[status], new_[status], f);
    }
    hide Compared, AboutProperty;
  }

  method CheckOperation(show: Printer, op: Operation, was: Fields, is_: Fields, oldDoc: Fields, newDoc: Fields,
                        before: seq<Finding>) returns (findings: seq<Finding>)
    ensures forall f :: f in findings <==>
              f in before || OperationFinding(op, InterfaceOf(show, was, oldDoc), InterfaceOf(show, is_, newDoc), f)
  {
    ghost var old_, new_ := InterfaceOf(show, was, oldDoc), InterfaceOf(show, is_, newDoc);
    InterfaceParts(show, was, oldDoc);
    InterfaceParts(show, is_, newDoc);
    forall f ensures OperationFinding(op, old_, new_, f) <==>
              || (f.ResponseRemoved? && f.op == op && f.status in old_.statuses - new_.statuses)
              || Compared(Request(op), old_.request, new_.request, f)
              || ResponseAmong(op, old_.responses, new_.responses, old_.statuses * new_.statuses, f)
              || (f.ParameterRequired? && f.op == op
                 && (f.name_, f.location) in new_.requiredParameters - old_.parameters)
    {
      FindingParts(op, old_, new_, f);
    }
    hide *;
    findings := ReportResponses(op, Keys(Responses(was)), Keys(Responses(is_)), before);
    findings := CompareObject(show, Request(op), BodySchema(was, oldDoc), BodySchema(is_, newDoc), oldDoc, newDoc,
                              findings);
    findings := CompareResponses(show, op, was, is_, oldDoc, newDoc, findings);
    findings := ReportParameters(op, RequiredParameters(is_) - Parameters(was), findings);
  }

  lemma {:induction false} InterfaceParts(show: Printer, op: Fields, doc: Fields)
    ensures var i := InterfaceOf(show, op, doc);
            && i.request == ShapeOf(show, BodySchema(op, doc), doc)
            && i.statuses == Keys(Responses(op)) && i.responses == ResponseShapes(show, op, doc)
            && i.parameters == Parameters(op) && i.requiredParameters == RequiredParameters(op)
  {
    hide Keys, Responses, ShapeOf, BodySchema, ResponseShapes, Parameters, RequiredParameters;
  }

  lemma {:induction false} FindingParts(op: Operation, old_: Interface, new_: Interface, f: Finding)
    requires old_.responses.Keys == old_.statuses && new_.responses.Keys == new_.statuses
    ensures OperationFinding(op, old_, new_, f) <==>
              || (f.ResponseRemoved? && f.op == op && f.status in old_.statuses - new_.statuses)
              || Compared(Request(op), old_.request, new_.request, f)
              || ResponseAmong(op, old_.responses, new_.responses, old_.statuses * new_.statuses, f)
              || (f.ParameterRequired? && f.op == op
                 && (f.name_, f.location) in new_.requiredParameters - old_.parameters)
  {
    ComparedSite(Request(op), old_.request, new_.request, f);
    hide Compared;
  }

  /** `check`. */
  method Check(show: Printer, oldDoc: Fields, newDoc: Fields) returns (findings: seq<Finding>)
    ensures forall f :: f in findings <==> Found(show, oldDoc, newDoc, f)
  {
    hide *;
    findings := [];
    var all := Operations(oldDoc);
    var todo := all;
    ghost var done: set<Operation> := {};
    NothingFoundYet(show, oldDoc, newDoc);
    while todo != {}
      invariant done == all - todo && todo <= all
      invariant forall f :: f in findings <==> FoundAmong(show, oldDoc, newDoc, done, f)
    {
      var op :| op in todo;
      var was := OperationAt(oldDoc, op);
      var is_ := OperationAt(newDoc, op);
      OneMoreOperation(show, oldDoc, newDoc, done, op);
      todo := todo - {op};
      done := done + {op};
      if is_.None? {
        findings := findings + [OperationRemoved(op)];
      } else {
        findings := CheckOperation(show, op, was.value, is_.value, oldDoc, newDoc, findings);
      }
    }
    assert done == all;
    findings := ReportSchemas(Keys(Schemas(oldDoc)) - Keys(Schemas(newDoc)), findings);
    EveryFinding(show, oldDoc, newDoc);
  }

  method ReportSchemas(names: set<string>, before: seq<Finding>) returns (findings: seq<Finding>)
    ensures forall f :: f in findings <==> f in before || (f.SchemaRemoved? && f.name in names)
  {
    findings := before;
    var todo := names;
    while todo != {}
      invariant todo <= names
      invariant forall f :: f in findings <==> f in before || (f.SchemaRemoved? && f.name in names - todo)
    {
      var name :| name in todo;
      todo := todo - {name};
      findings := findings + [SchemaRemoved(name)];
    }
  }

  predicate FoundAmong(show: Printer, old_: Fields, new_: Fields, ops: set<Operation>, f: Finding) {
    match OperationOf(f)
    case None => false
    case Some(op) => op in ops && FoundAt(show, old_, new_, op, f)
  }

  lemma {:induction false} NothingFoundYet(show: Printer, old_: Fields, new_: Fields)
    ensures forall f :: !FoundAmong(show, old_, new_, {}, f)
  {
    hide FoundAt;
  }

  lemma {:induction false} OneMoreOperation(show: Printer, old_: Fields, new_: Fields, ops: set<Operation>,
                                            op: Operation)
    requires OperationAt(old_, op).Some?
    ensures var was, is_ := OperationAt(old_, op), OperationAt(new_, op);
            forall f :: FoundAmong(show, old_, new_, ops + {op}, f) <==>
                          || FoundAmong(show, old_, new_, ops, f)
                          || if is_.None? then f == OperationRemoved(op)
                             else OperationFinding(op, InterfaceOf(show, was.value, old_),
                                                   InterfaceOf(show, is_.value, new_), f)
  {
    hide InterfaceOf, OperationAt, OperationFinding;
    var was, is_ := OperationAt(old_, op), OperationAt(new_, op);
    if is_.Some? {
      forall f ensures OperationFinding(op, InterfaceOf(show, was.value, old_), InterfaceOf(show, is_.value, new_), f)
                   ==> OperationOf(f) == Some(op)
      {
        FindingIsAbout(op, InterfaceOf(show, was.value, old_), InterfaceOf(show, is_.value, new_), f);
      }
    }
  }

  lemma {:induction false} FindingIsAbout(op: Operation, old_: Interface, new_: Interface, f: Finding)
    requires old_.responses.Keys == old_.statuses && new_.responses.Keys == new_.statuses
    ensures OperationFinding(op, old_, new_, f) ==> OperationOf(f) == Some(op)
  {
    hide Compared;
  }

  lemma {:induction false} EveryFinding(show: Printer, old_: Fields, new_: Fields)
    ensures forall f :: Found(show, old_, new_, f) <==>
                          || FoundAmong(show, old_, new_, Operations(old_), f)
                          || (f.SchemaRemoved? && f.name in Keys(Schemas(old_)) - Keys(Schemas(new_)))
  {
    hide OperationFinding, InterfaceOf, OperationAt;
  }
}
