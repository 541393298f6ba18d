/** When the contract check is silent, in terms of what it reads. */
module Silence {
  import opened Wrappers
  import opened Signatures
  import opened OpenApi

  // --------------------------------------------------------------------------------------------
  // Two object schemas
  // --------------------------------------------------------------------------------------------

  predicate AgreeOnTypes(a: Shape, b: Shape) {
    forall n :: n in a.props && n in b.props ==> a.props[n] == b.props[n]
  }

  ghost predicate NothingCompared(site: Site, old_: Shape, new_: Shape) {
    forall f :: !Compared(site, old_, new_, f)
  }

  lemma {:induction false} NothingComparedMeans(site: Site, old_: Shape, new_: Shape)
    ensures NothingCompared(site, old_, new_) <==>
              && (forall n :: n in old_.props ==> PropertyFinding(site, old_, new_, n) == None)
              && (forall n :: RequiredFinding(site, old_, new_, n) == None)
  {
    if NothingCompared(site, old_, new_) {
      forall n | n in old_.props ensures PropertyFinding(site, old_, new_, n) == None {
        var r := PropertyFinding(site, old_, new_, n);
        if r.Some? {
          assert Compared(site, old_, new_, r.value);
        }
      }
      forall n ensures RequiredFinding(site, old_, new_, n) == None {
        var r := RequiredFinding(site, old_, new_, n);
        if r.Some? {
          assert Compared(site, old_, new_, r.value);
        }
      }
    }
  }

  predicate KeepsRequiredProperties(old_: Shape, new_: Shape) {
    old_.required * old_.props.Keys <= new_.props.Keys
  }

  lemma {:induction false} RequestFindings(op: Operation, old_: Shape, new_: Shape)
    ensures (forall n :: n in old_.props ==> PropertyFinding(Request(op), old_, new_, n) == None)
       <==> AgreeOnTypes(old_, new_) && KeepsRequiredProperties(old_, new_)
    ensures (forall n :: RequiredFinding(Request(op), old_, new_, n) == None) <==> new_.required <= old_.required
  {
    forall n | n in old_.props
      ensures PropertyFinding(Request(op), old_, new_, n) == None <==>
                if n in new_.props then old_.props[n] == new_.props[n] else n !in old_.required
    {
    }
    if new_.required <= old_.required {
    } else {
      var n :| n in new_.required && n !in old_.required;
      assert RequiredFinding(Request(op), old_, new_, n) != None;
    }
  }

  lemma {:induction false} ResponseFindings(op: Operation, status: string, old_: Shape, new_: Shape)
    ensures (forall n :: n in old_.props ==> PropertyFinding(Response(op, status), old_, new_, n) == None)
       <==> AgreeOnTypes(old_, new_) && old_.props.Keys <= new_.props.Keys
    ensures (forall n :: RequiredFinding(Response(op, status), old_, new_, n) == None)
       <==> old_.required * new_.props.Keys <= new_.required
  {
    if old_.required * new_.props.Keys <= new_.required {
    } else {
      var n :| n in old_.required * new_.props.Keys && n !in new_.required;
      assert RequiredFinding(Response(op, status), old_, new_, n) != None;
    }
    if (forall n :: n in old_.props ==> PropertyFinding(Response(op, status), old_, new_, n) == None) {
      forall n | n in old_.props ensures n in new_.props && old_.props[n] == new_.props[n] {
        assert PropertyFinding(Response(op, status), old_, new_, n) == None;
      }
    }
  }

  /** Nothing is found about two request schemas exactly when no name became required, the signatures of the
      properties both declare agree, and no required property is gone. */
  lemma {:induction false} RequestIsSilent(op: Operation, old_: Shape, new_: Shape)
    ensures NothingCompared(Request(op), old_, new_)
       <==> && new_.required <= old_.required && AgreeOnTypes(old_, new_)
            && KeepsRequiredProperties(old_, new_)
  {
    NothingComparedMeans(Request(op), old_, new_);
    RequestFindings(op, old_, new_);
    hide NothingCompared, AgreeOnTypes, KeepsRequiredProperties, PropertyFinding, RequiredFinding;
  }

  /** Nothing is found about two response schemas exactly when no property is gone, the signatures agree, and no
      guaranteed name that is still declared lost its guarantee. */
  lemma {:induction false} ResponseIsSilent(op: Operation, status: string, old_: Shape, new_: Shape)
    ensures NothingCompared(Response(op, status), old_, new_)
       <==> && old_.props.Keys <= new_.props.Keys && AgreeOnTypes(old_, new_)
            && old_.required * new_.props.Keys <= new_.required
  {
    NothingComparedMeans(Response(op, status), old_, new_);
    ResponseFindings(op, status, old_, new_);
    hide NothingCompared, AgreeOnTypes, PropertyFinding, RequiredFinding;
  }

  // --------------------------------------------------------------------------------------------
  // Operations
  // --------------------------------------------------------------------------------------------

  ghost predicate Consistent(i: Interface) {
    i.responses.Keys == i.statuses && i.requiredParameters <= i.parameters
  }

  lemma {:induction false} NoOperationFinding(op: Operation, old_: Interface, new_: Interface)
    requires old_.responses.Keys == old_.statuses && new_.responses.Keys == new_.statuses
    ensures (forall f :: !OperationFinding(op, old_, new_, f)) <==>
              && NothingCompared(Request(op), old_.request, new_.request)
              && old_.statuses <= new_.statuses
              && (forall s :: s in old_.statuses && s in new_.statuses && IsSuccess(s) ==>
                    NothingCompared(Response(op, s), old_.responses[s], new_.responses[s]))
              && new_.requiredParameters <= old_.parameters
  {
    forall f ensures OperationFinding(op, old_, new_, f) <==>
              || (f.ResponseRemoved? && f.op == op && f.status in old_.statuses - new_.statuses)
              || Compared(Request(op), old_.request, new_.request, f)
              || ResponseAmong(op, old_.responses, new_.responses, old_.statuses * new_.statuses, f)
              || (f.ParameterRequired? && f.op == op
                 && (f.name_, f.location) in new_.requiredParameters - old_.parameters)
    {
      FindingParts(op, old_, new_, f);
    }
    hide OperationFinding, Compared, AboutProperty;
    if forall f :: !OperationFinding(op, old_, new_, f) {
      forall s | s in old_.statuses ensures s in new_.statuses {
        assert !OperationFinding(op, old_, new_, ResponseRemoved(op, s));
      }
      forall s, f | s in old_.statuses && s in new_.statuses && IsSuccess(s)
        ensures !Compared(Response(op, s), old_.responses[s], new_.responses[s], f)
      {
        ComparedSite(Response(op, s), old_.responses[s], new_.responses[s], f);
        assert !OperationFinding(op, old_, new_, f);
      }
      forall p | p in new_.requiredParameters ensures p in old_.parameters {
        assert !OperationFinding(op, old_, new_, ParameterRequired(op, p.0, p.1));
      }
    }
  }

  /** What the check wants of an operation. */
  ghost predicate Kept(old_: Interface, new_: Interface)
    requires Consistent(old_) && Consistent(new_)
  {
    && new_.request.required <= old_.request.required && AgreeOnTypes(old_.request, new_.request)
    && KeepsRequiredProperties(old_.request, new_.request)
    && old_.statuses <= new_.statuses
    && (forall s :: s in old_.statuses && s in new_.statuses && IsSuccess(s) ==>
          KeptResponse(old_.responses[s], new_.responses[s]))
    && new_.requiredParameters <= old_.parameters
  }

  ghost predicate KeptResponse(old_: Shape, new_: Shape) {
    && old_.props.Keys <= new_.props.Keys && AgreeOnTypes(old_, new_)
    && old_.required * new_.props.Keys <= new_.required
  }

  lemma {:induction false} OperationIsSilent(op: Operation, old_: Interface, new_: Interface)
    requires Consistent(old_) && Consistent(new_)
    ensures (forall f :: !OperationFinding(op, old_, new_, f)) <==> Kept(old_, new_)
  {
    RequestIsSilent(op, old_.request, new_.request);
    NoOperationFinding(op, old_, new_);
    forall s | s in old_.statuses && s in new_.statuses && IsSuccess(s)
      ensures NothingCompared(Response(op, s), old_.responses[s], new_.responses[s])
         <==> KeptResponse(old_.responses[s], new_.responses[s])
    {
      ResponseIsSilent(op, s, old_.responses[s], new_.responses[s]);
    }
    hide OperationFinding, NothingCompared, KeepsRequiredProperties, AgreeOnTypes, KeptResponse, IsSuccess;
  }

  // --------------------------------------------------------------------------------------------
  // Documents
  // --------------------------------------------------------------------------------------------

  /** What the check reads of an operation of the document. */
  function At(show: Printer, doc: Fields, op: Operation): (i: Interface)
    requires op in Operations(doc)
    ensures Consistent(i)
  {
    InterfaceOf(show, OperationAt(doc, op).value, doc)
  }

  ghost predicate Silent(show: Printer, old_: Fields, new_: Fields) {
    forall f :: !Found(show, old_, new_, f)
  }

  /** The check is silent exactly when every operation is kept as it wants, and every schema. */
  lemma {:induction false} SilenceMeans(show: Printer, old_: Fields, new_: Fields)
    ensures Silent(show, old_, new_) <==>
              && (forall op :: op in Operations(old_) ==>
                    op in Operations(new_) && Kept(At(show, old_, op), At(show, new_, op)))
              && Keys(Schemas(old_)) <= Keys(Schemas(new_))
  {
    forall op | op in Operations(old_)
      ensures (forall f :: !FoundAt(show, old_, new_, op, f))
         <==> op in Operations(new_) && Kept(At(show, old_, op), At(show, new_, op))
    {
      OneOperation(show, old_, new_, op);
    }
    NothingFound(show, old_, new_);
    hide At, Operations, Keys, Schemas, Kept, FoundAt, Found, OperationAt;
  }

  lemma {:induction false} OneOperation(show: Printer, old_: Fields, new_: Fields, op: Operation)
    requires op in Operations(old_)
    ensures (forall f :: !FoundAt(show, old_, new_, op, f))
       <==> op in Operations(new_) && Kept(At(show, old_, op), At(show, new_, op))
  {
    hide InterfaceOf, OperationAt;
    if op in Operations(new_) {
      OperationIsSilent(op, At(show, old_, op), At(show, new_, op));
      hide OperationFinding, Kept;
      assert forall f :: FoundAt(show, old_, new_, op, f) <==>
               OperationFinding(op, At(show, old_, op), At(show, new_, op), f);
    } else {
      assert FoundAt(show, old_, new_, op, OperationRemoved(op));
    }
  }

  lemma {:induction false} FoundAtIsAbout(show: Printer, old_: Fields, new_: Fields, op: Operation, f: Finding)
    ensures FoundAt(show, old_, new_, op, f) ==> OperationOf(f) == Some(op)
  {
    hide InterfaceOf, OperationAt;
    var was, is_ := OperationAt(old_, op), OperationAt(new_, op);
    if was.Some? && is_.Some? {
      FindingIsAbout(op, InterfaceOf(show, was.value, old_), InterfaceOf(show, is_.value, new_), f);
    }
  }

  lemma {:induction false} NothingFound(show: Printer, old_: Fields, new_: Fields)
    ensures (forall f :: !Found(show, old_, new_, f)) <==>
              && (forall op :: op in Operations(old_) ==> forall f :: !FoundAt(show, old_, new_, op, f))
              && Keys(Schemas(old_)) <= Keys(Schemas(new_))
  {
    if forall f :: !Found(show, old_, new_, f) {
      forall op, f | op in Operations(old_) ensures !FoundAt(show, old_, new_, op, f) {
        FoundAtIsAbout(show, old_, new_, op, f);
        assert !Found(show, old_, new_, f);
      }
      forall name | name in Keys(Schemas(old_)) ensures name in Keys(Schemas(new_)) {
        assert !Found(show, old_, new_, SchemaRemoved(name));
      }
    }
    forall op, f | op !in Operations(old_) ensures !FoundAt(show, old_, new_, op, f) {
    }
  }

  /** Two documents that read the same are not told apart. */
  lemma {:induction false} SameReading(show: Printer, old_: Fields, new_: Fields)
    requires Operations(old_) == Operations(new_) && Keys(Schemas(old_)) == Keys(Schemas(new_))
    requires forall op :: op in Operations(old_) ==> At(show, old_, op) == At(show, new_, op)
    ensures Silent(show, old_, new_)
  {
    forall op, f | op in Operations(old_) ensures !FoundAt(show, old_, new_, op, f) {
      NoFindingOnEqual(op, At(show, old_, op), f);
    }
    NothingFound(show, old_, new_);
  }

  lemma {:induction false} NoFindingOnEqual(op: Operation, i: Interface, f: Finding)
    requires Consistent(i)
    ensures !OperationFinding(op, i, i, f)
  {
    FindingParts(op, i, i, f);
  }

  /** A contract is compatible with itself. */
  lemma {:induction false} CheckAgainstItself(show: Printer, doc: Fields)
    ensures Silent(show, doc, doc)
  {
    SameReading(show, doc, doc);
  }

  // --------------------------------------------------------------------------------------------
  // Documents with one operation
  // --------------------------------------------------------------------------------------------

  function Only(key: string, value: Json): Fields {
    [(key, value)]
  }

  lemma {:induction false} GetOnly(key: string, value: Json, k: string)
    ensures Get(Only(key, value), k) == if k == key then value else Null
    ensures Keys(Only(key, value)) == {key}
  {
    assert Only(key, value)[1..] == [];
    assert Only(key, value)[0].0 == key;
  }

  lemma {:induction false} EmptyShape(show: Printer, doc: Fields)
    ensures ShapeOf(show, [], doc) == Shape({}, map[])
  {
    hide TypeOf, Resolve;
    assert Keys([]) == {};
  }

  /** A document with one operation and no schemas. */
  function OneOperationDocument(path: string, m: string, fields: Fields): Fields {
    Only("paths", Obj(Only(path, Obj(Only(m, Obj(fields))))))
  }

  lemma {:induction false} OneOperationOnly(path: string, m: string, fields: Fields)
    requires m in Methods()
    ensures var doc := OneOperationDocument(path, m, fields);
            && Operations(doc) == {Operation(path, m)} && OperationAt(doc, Operation(path, m)) == Some(fields)
            && Schemas(doc) == []
  {
    var doc := OneOperationDocument(path, m, fields);
    var item := Only(m, Obj(fields));
    forall k {
      GetOnly("paths", Obj(Only(path, Obj(item))), k);
    }
  }

  /** On such documents the check is about the two operations alone. */
  lemma {:induction false} OneOperationSilent(show: Printer, path: string, m: string, was: Fields, is_: Fields)
    requires m in Methods()
    ensures var d, e := OneOperationDocument(path, m, was), OneOperationDocument(path, m, is_);
            Silent(show, d, e) <==> Kept(InterfaceOf(show, was, d), InterfaceOf(show, is_, e))
  {
    var d, e, op := OneOperationDocument(path, m, was), OneOperationDocument(path, m, is_), Operation(path, m);
    OneOperationOnly(path, m, was);
    OneOperationOnly(path, m, is_);
    hide OneOperationDocument;
    SilenceMeans(show, d, e);
    hide InterfaceOf, Kept, Operations, Schemas, OperationAt;
    assert At(show, d, op) == InterfaceOf(show, was, d) && At(show, e, op) == InterfaceOf(show, is_, e);
    hide At;
    assert op in Operations(d) && Keys([]) <= Keys([]);
  }
}
