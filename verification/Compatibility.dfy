/** The contract check, document by document, against clients and servers that exchange messages with values. */
module Compatibility {
  import opened Signatures
  import opened Meanings
  import opened OpenApi
  import opened Silence
  import opened Clients

  // --------------------------------------------------------------------------------------------
  // Parameters
  // --------------------------------------------------------------------------------------------

  type Parameter = (Json, Json)

  /** A client sends every required parameter and any of the optional ones. */
  predicate SendsParameters(i: Interface, sent: set<Parameter>) {
    i.requiredParameters <= sent <= i.parameters
  }

  ghost predicate EverySelectionAccepted(old_: Interface, new_: Interface) {
    forall sent :: SendsParameters(old_, sent) ==> new_.requiredParameters <= sent
  }

  lemma {:induction false} SelectionsAccepted(old_: Interface, new_: Interface)
    requires old_.requiredParameters <= old_.parameters
    ensures EverySelectionAccepted(old_, new_) <==> new_.requiredParameters <= old_.requiredParameters
  {
    assert SendsParameters(old_, old_.requiredParameters);
  }

  // --------------------------------------------------------------------------------------------
  // Operations
  // --------------------------------------------------------------------------------------------

  function RequestNode(doc: Fields, op: Operation): Fields
    requires op in Operations(doc)
  {
    BodySchema(OperationAt(doc, op).value, doc)
  }

  function ResponseNode(doc: Fields, op: Operation, status: string): Fields
    requires op in Operations(doc)
  {
    ResponseSchema(OperationAt(doc, op).value, doc, status)
  }

  function Statuses(doc: Fields, op: Operation): set<string>
    requires op in Operations(doc)
  {
    Keys(Responses(OperationAt(doc, op).value))
  }

  lemma {:induction false} AtIs(show: Printer, doc: Fields, op: Operation)
    requires op in Operations(doc)
    ensures var i := At(show, doc, op);
            && i.request == ShapeOf(show, RequestNode(doc, op), doc) && i.statuses == Statuses(doc, op)
            && i.responses.Keys == i.statuses && i.requiredParameters <= i.parameters
            && forall s :: s in i.statuses ==> i.responses[s] == ShapeOf(show, ResponseNode(doc, op, s), doc)
  {
    InterfaceParts(show, OperationAt(doc, op).value, doc);
    ResponseParts(show, OperationAt(doc, op).value, doc);
    hide ShapeOf, BodySchema, ResponseSchema, ResponseShapes, OperationAt, InterfaceOf;
  }

  /** What holds of the schemas that a client and a server use for the operation: of the request schemas, the
      client's first, and of every success response that both documents have, the server's first. */
  ghost predicate OfBodies(
      old_: Fields, new_: Fields, op: Operation, request: (Fields, Fields) -> bool, response: (Fields, Fields) -> bool)
    requires op in Operations(old_) && op in Operations(new_)
  {
    && request(RequestNode(old_, op), RequestNode(new_, op))
    && forall s :: s in Statuses(old_, op) && s in Statuses(new_, op) && IsSuccess(s) ==>
         response(ResponseNode(new_, op, s), ResponseNode(old_, op, s))
  }

  /** For this reader, an old client goes on working against the operation: every request is accepted, every success
      response can be read, no status is gone, and every selection of parameters is accepted. */
  ghost predicate Works(show: Printer, r: Reader, old_: Fields, new_: Fields, op: Operation)
    requires op in Operations(old_) && op in Operations(new_)
  {
    && OfBodies(old_, new_, op,
         (x, y) => EveryMessageFits(ContractOf(show, r, x, old_), ContractOf(show, r, y, new_)),
         (y, x) => EveryMessageFits(ContractOf(show, r, y, new_), ContractOf(show, r, x, old_)))
    && Statuses(old_, op) <= Statuses(new_, op)
    && EverySelectionAccepted(At(show, old_, op), At(show, new_, op))
  }

  /** The operation avoids the blind spots of the check in the names: nothing that clients send untyped is given
      a type, no guaranteed name goes unmentioned, and no optional parameter becomes required. */
  predicate InSight(old_: Interface, new_: Interface)
    requires old_.responses.Keys == old_.statuses && new_.responses.Keys == new_.statuses
  {
    && (forall n :: n in old_.request.required && n !in old_.request.props && n in new_.request.props ==>
          new_.request.props[n] == "any")
    && (forall s :: s in old_.statuses && s in new_.statuses && IsSuccess(s) ==>
          old_.responses[s].required <= new_.responses[s].required + new_.responses[s].props.Keys)
    && new_.requiredParameters * old_.parameters <= old_.requiredParameters
  }

  /** What the check asks, blind spots avoided. */
  ghost predicate KeptInSight(old_: Interface, new_: Interface)
    requires Consistent(old_) && Consistent(new_)
  {
    && ShapesFit(old_.request, new_.request) && KeepsRequiredProperties(old_.request, new_.request)
    && old_.statuses <= new_.statuses
    && (forall s :: s in old_.statuses && s in new_.statuses && IsSuccess(s) ==>
          && ShapesFit(new_.responses[s], old_.responses[s])
          && old_.responses[s].props.Keys <= new_.responses[s].props.Keys)
    && new_.requiredParameters <= old_.requiredParameters
  }

  lemma {:induction false} InSightMeans(old_: Interface, new_: Interface)
    requires Consistent(old_) && Consistent(new_)
    ensures Kept(old_, new_) && InSight(old_, new_) <==> KeptInSight(old_, new_)
  {
    forall s | s in old_.statuses && s in new_.statuses && IsSuccess(s)
      ensures KeptResponse(old_.responses[s], new_.responses[s])
              && old_.responses[s].required <= new_.responses[s].required + new_.responses[s].props.Keys
         <==> ShapesFit(new_.responses[s], old_.responses[s])
              && old_.responses[s].props.Keys <= new_.responses[s].props.Keys
    {
      ResponseInSight(old_.responses[s], new_.responses[s]);
    }
    hide KeptResponse, IsSuccess, KeepsRequiredProperties, AgreeOnTypes;
  }

  lemma {:induction false} ResponseInSight(old_: Shape, new_: Shape)
    ensures KeptResponse(old_, new_) && old_.required <= new_.required + new_.props.Keys
       <==> ShapesFit(new_, old_) && old_.props.Keys <= new_.props.Keys
  {
  }

  // --------------------------------------------------------------------------------------------
  // Soundness
  // --------------------------------------------------------------------------------------------

  ghost predicate AllInSight(show: Printer, old_: Fields, new_: Fields) {
    forall op :: op in Operations(old_) && op in Operations(new_) ==> InSight(At(show, old_, op), At(show, new_, op))
  }

  /** Every property that is compared can be told from its signature. */
  ghost predicate AllReadable(show: Printer, old_: Fields, new_: Fields) {
    forall op :: op in Operations(old_) && op in Operations(new_) ==>
      OfBodies(old_, new_, op, (x, y) => ReadablePair(show, x, old_, y, new_),
               (y, x) => ReadablePair(show, y, new_, x, old_))
  }

  /** What signatures leave out demands no more of what is received than of what is sent. */
  ghost predicate NoMoreIsDemanded(r: Reader, old_: Fields, new_: Fields) {
    forall op :: op in Operations(old_) && op in Operations(new_) ==>
      OfBodies(old_, new_, op, (x, y) => NoMoreDemanded(r, x, old_, y, new_),
               (y, x) => NoMoreDemanded(r, y, new_, x, old_))
  }

  ghost predicate CompatibleFor(show: Printer, r: Reader, old_: Fields, new_: Fields) {
    forall op :: op in Operations(old_) ==> op in Operations(new_) && Works(show, r, old_, new_, op)
  }

  lemma {:induction false} SilentInSight(show: Printer, old_: Fields, new_: Fields)
    ensures Silent(show, old_, new_) && AllInSight(show, old_, new_) <==>
              && (forall op :: op in Operations(old_) ==>
                    op in Operations(new_) && KeptInSight(At(show, old_, op), At(show, new_, op)))
              && Keys(Schemas(old_)) <= Keys(Schemas(new_))
  {
    SilenceMeans(show, old_, new_);
    forall op | op in Operations(old_) && op in Operations(new_)
      ensures Kept(At(show, old_, op), At(show, new_, op)) && InSight(At(show, old_, op), At(show, new_, op))
         <==> KeptInSight(At(show, old_, op), At(show, new_, op))
    {
      InSightMeans(At(show, old_, op), At(show, new_, op));
    }
    hide Silent, Kept, InSight, KeptInSight, At, Operations, Schemas;
  }

  /** If the check is silent and its blind spots in the names are not touched, then for every reader to whom what
      signatures leave out demands no more than before, every request of an old client is accepted, every success
      response of the new server can be read, and every status and selection of parameters is kept. */
  lemma {:induction false} CheckIsSound(show: Printer, r: Reader, old_: Fields, new_: Fields)
    requires Silent(show, old_, new_) && AllInSight(show, old_, new_)
    requires r.Valid() && AllReadable(show, old_, new_) && NoMoreIsDemanded(r, old_, new_)
    ensures CompatibleFor(show, r, old_, new_)
  {
    SilentInSight(show, old_, new_);
    hide Silent, AllInSight, Operations, KeptInSight, Works, OfBodies;
    forall op | op in Operations(old_) ensures op in Operations(new_) && Works(show, r, old_, new_, op) {
      KeptWorks(show, r, old_, new_, op);
    }
  }

  lemma {:induction false} KeptWorks(show: Printer, r: Reader, old_: Fields, new_: Fields, op: Operation)
    requires op in Operations(old_) && op in Operations(new_) && r.Valid()
    requires KeptInSight(At(show, old_, op), At(show, new_, op))
    requires OfBodies(old_, new_, op, (x, y) => ReadablePair(show, x, old_, y, new_),
                      (y, x) => ReadablePair(show, y, new_, x, old_))
    requires OfBodies(old_, new_, op, (x, y) => NoMoreDemanded(r, x, old_, y, new_),
                      (y, x) => NoMoreDemanded(r, y, new_, x, old_))
    ensures Works(show, r, old_, new_, op)
  {
    hide *;
    KeptInTerms(show, old_, new_, op);
    DemandingBodies(show, r, old_, new_, op);
    ShapesCarryValues(show, r, RequestNode(old_, op), old_, RequestNode(new_, op), new_);
    forall s | s in Statuses(old_, op) && s in Statuses(new_, op) && IsSuccess(s)
      ensures EveryMessageFits(ContractOf(show, r, ResponseNode(new_, op, s), new_),
                               ContractOf(show, r, ResponseNode(old_, op, s), old_))
    {
      ResponseCarries(show, r, ResponseNode(new_, op, s), new_, ResponseNode(old_, op, s), old_);
    }
    FitsWork(show, r, old_, new_, op);
  }

  lemma {:induction false} DemandingBodies(show: Printer, r: Reader, old_: Fields, new_: Fields, op: Operation)
    requires op in Operations(old_) && op in Operations(new_)
    requires OfBodies(old_, new_, op, (x, y) => ReadablePair(show, x, old_, y, new_),
                      (y, x) => ReadablePair(show, y, new_, x, old_))
    requires OfBodies(old_, new_, op, (x, y) => NoMoreDemanded(r, x, old_, y, new_),
                      (y, x) => NoMoreDemanded(r, y, new_, x, old_))
    ensures ReadablePair(show, RequestNode(old_, op), old_, RequestNode(new_, op), new_)
    ensures NoMoreDemanded(r, RequestNode(old_, op), old_, RequestNode(new_, op), new_)
    ensures forall s :: s in Statuses(old_, op) && s in Statuses(new_, op) && IsSuccess(s) ==>
              && ReadablePair(show, ResponseNode(new_, op, s), new_, ResponseNode(old_, op, s), old_)
              && NoMoreDemanded(r, ResponseNode(new_, op, s), new_, ResponseNode(old_, op, s), old_)
  {
    hide Operations, RequestNode, ResponseNode, Statuses, ReadablePair, NoMoreDemanded, IsSuccess;
  }

  lemma {:induction false} ResponseCarries(show: Printer, r: Reader, y: Fields, e: Fields, x: Fields, d: Fields)
    requires r.Valid() && ReadablePair(show, y, e, x, d) && NoMoreDemanded(r, y, e, x, d)
    requires ResponseKept(show, y, e, x, d)
    ensures EveryMessageFits(ContractOf(show, r, y, e), ContractOf(show, r, x, d))
  {
    ShapesCarryValues(show, r, y, e, x, d);
    hide ReadablePair, NoMoreDemanded, ShapesFit, ShapeOf, ContractOf, EveryMessageFits;
  }

  lemma {:induction false} FitsWork(show: Printer, r: Reader, old_: Fields, new_: Fields, op: Operation)
    requires op in Operations(old_) && op in Operations(new_)
    requires EveryMessageFits(ContractOf(show, r, RequestNode(old_, op), old_),
                              ContractOf(show, r, RequestNode(new_, op), new_))
    requires forall s :: s in Statuses(old_, op) && s in Statuses(new_, op) && IsSuccess(s) ==>
               EveryMessageFits(ContractOf(show, r, ResponseNode(new_, op, s), new_),
                                ContractOf(show, r, ResponseNode(old_, op, s), old_))
    requires Statuses(old_, op) <= Statuses(new_, op)
    requires EverySelectionAccepted(At(show, old_, op), At(show, new_, op))
    ensures Works(show, r, old_, new_, op)
  {
    hide Operations, At, RequestNode, ResponseNode, Statuses, ContractOf, EveryMessageFits, EverySelectionAccepted,
      IsSuccess;
  }

  // Readers that look at the members of a schema only

  const READ: set<string> := {"type", "format", "enum", "$ref"}

  /** The schemas agree on every member that a signature does not read. */
  ghost predicate SameUnread(a: Fields, b: Fields) {
    forall key :: key !in READ ==> Get(a, key) == Get(b, key)
  }

  ghost predicate IsLocal(r: Reader) {
    forall a, d, b, e, v :: SameUnread(a, b) && r.demands(a, d, v) ==> r.demands(b, e, v)
  }

  ghost predicate SharedUnread(x: Fields, d: Fields, y: Fields, e: Fields) {
    forall n :: n in Declared(y) && (n in Declared(x) || n in RequiredOf(x)) ==>
      SameUnread(PropNode(x, d, n), PropNode(y, e, n))
  }

  ghost predicate UnreadIsKept(old_: Fields, new_: Fields) {
    forall op :: op in Operations(old_) && op in Operations(new_) ==>
      OfBodies(old_, new_, op, (x, y) => SharedUnread(x, old_, y, new_), (y, x) => SharedUnread(y, new_, x, old_))
  }

  lemma {:induction false} SameDemands(r: Reader, x: Fields, d: Fields, y: Fields, e: Fields)
    requires IsLocal(r) && SharedUnread(x, d, y, e)
    ensures NoMoreDemanded(r, x, d, y, e)
  {
    hide SameUnread, PropNode, Declared, RequiredOf;
  }

  /** Where the old and the new properties agree on all that signatures leave out, silence means the same for every
      reader that looks at the members of a property's schema only. */
  lemma {:induction false} FlatCheckIsSound(show: Printer, r: Reader, old_: Fields, new_: Fields)
    requires Silent(show, old_, new_) && AllInSight(show, old_, new_) && AllReadable(show, old_, new_)
    requires r.Valid() && IsLocal(r) && UnreadIsKept(old_, new_)
    ensures CompatibleFor(show, r, old_, new_)
  {
    hide Silent, AllInSight, AllReadable, Operations, IsLocal, CompatibleFor;
    forall op | op in Operations(old_) && op in Operations(new_)
      ensures OfBodies(old_, new_, op, (x, y) => NoMoreDemanded(r, x, old_, y, new_),
                       (y, x) => NoMoreDemanded(r, y, new_, x, old_))
    {
      DemandsOfBodies(r, old_, new_, op);
    }
    hide OfBodies;
    CheckIsSound(show, r, old_, new_);
  }

  lemma {:induction false} DemandsOfBodies(r: Reader, old_: Fields, new_: Fields, op: Operation)
    requires op in Operations(old_) && op in Operations(new_) && IsLocal(r)
    requires OfBodies(old_, new_, op, (x, y) => SharedUnread(x, old_, y, new_),
                      (y, x) => SharedUnread(y, new_, x, old_))
    ensures OfBodies(old_, new_, op, (x, y) => NoMoreDemanded(r, x, old_, y, new_),
                     (y, x) => NoMoreDemanded(r, y, new_, x, old_))
  {
    hide Operations, RequestNode, ResponseNode, Statuses, IsSuccess, SharedUnread, NoMoreDemanded, IsLocal;
    SameDemands(r, RequestNode(old_, op), old_, RequestNode(new_, op), new_);
    forall s | s in Statuses(old_, op) && s in Statuses(new_, op) && IsSuccess(s)
      ensures NoMoreDemanded(r, ResponseNode(new_, op, s), new_, ResponseNode(old_, op, s), old_)
    {
      SameDemands(r, ResponseNode(new_, op, s), new_, ResponseNode(old_, op, s), old_);
    }
  }

  // --------------------------------------------------------------------------------------------
  // Exactness
  // --------------------------------------------------------------------------------------------

  ghost predicate AllDistinct(show: Printer, old_: Fields, new_: Fields) {
    forall op :: op in Operations(old_) && op in Operations(new_) ==>
      OfBodies(old_, new_, op, (x, y) => DistinctPair(show, x, old_, y, new_),
               (y, x) => DistinctPair(show, y, new_, x, old_))
  }

  /** Whatever is read means, the operation works as before; and beyond what that takes, the properties that both
      sides declare accept the same values, the request properties a client had to send are still declared, and so
      are all response properties. */
  ghost predicate WorksAndMore(show: Printer, old_: Fields, new_: Fields, op: Operation)
    requires op in Operations(old_) && op in Operations(new_)
  {
    && OfBodies(old_, new_, op, (x, y) => AlwaysFits(show, x, old_, y, new_) && SharedMeanSame(show, x, old_, y, new_),
                (y, x) => AlwaysFits(show, y, new_, x, old_) && SharedMeanSame(show, y, new_, x, old_))
    && OfBodies(old_, new_, op, (x, y) => RequiredOf(x) * Declared(x) <= Declared(y),
                (y, x) => Declared(x) <= Declared(y))
    && Statuses(old_, op) <= Statuses(new_, op)
    && EverySelectionAccepted(At(show, old_, op), At(show, new_, op))
  }

  /** On documents whose compared properties can be told from their signatures, the check is silent with its blind
      spots in the names untouched exactly when every operation works as before whatever is read means, and keeps
      what the check wants beyond that, and every schema is kept. */
  lemma {:induction false} CheckIsExact(show: Printer, old_: Fields, new_: Fields)
    requires AllReadable(show, old_, new_) && AllDistinct(show, old_, new_)
    ensures Silent(show, old_, new_) && AllInSight(show, old_, new_) <==>
              && (forall op :: op in Operations(old_) ==>
                    op in Operations(new_) && WorksAndMore(show, old_, new_, op))
              && Keys(Schemas(old_)) <= Keys(Schemas(new_))
  {
    SilentInSight(show, old_, new_);
    hide Silent, AllInSight, Operations, KeptInSight, WorksAndMore, OfBodies, Schemas;
    forall op | op in Operations(old_) && op in Operations(new_)
      ensures KeptInSight(At(show, old_, op), At(show, new_, op)) <==> WorksAndMore(show, old_, new_, op)
    {
      KeptExactly(show, old_, new_, op);
    }
  }

  lemma {:induction false} KeptExactly(show: Printer, old_: Fields, new_: Fields, op: Operation)
    requires op in Operations(old_) && op in Operations(new_)
    requires OfBodies(old_, new_, op, (x, y) => ReadablePair(show, x, old_, y, new_),
                      (y, x) => ReadablePair(show, y, new_, x, old_))
    requires OfBodies(old_, new_, op, (x, y) => DistinctPair(show, x, old_, y, new_),
                      (y, x) => DistinctPair(show, y, new_, x, old_))
    ensures KeptInSight(At(show, old_, op), At(show, new_, op)) <==> WorksAndMore(show, old_, new_, op)
  {
    ReadableBodies(show, old_, new_, op);
    RequestExactly(show, RequestNode(old_, op), old_, RequestNode(new_, op), new_);
    forall s | s in Statuses(old_, op) && s in Statuses(new_, op) && IsSuccess(s)
      ensures ResponseKept(show, ResponseNode(new_, op, s), new_, ResponseNode(old_, op, s), old_)
         <==> ResponseWorks(show, ResponseNode(new_, op, s), new_, ResponseNode(old_, op, s), old_)
    {
      ResponseExactly(show, ResponseNode(new_, op, s), new_, ResponseNode(old_, op, s), old_);
    }
    KeptInTerms(show, old_, new_, op);
    WorksInTerms(show, old_, new_, op);
    hide *;
  }

  lemma {:induction false} ReadableBodies(show: Printer, old_: Fields, new_: Fields, op: Operation)
    requires op in Operations(old_) && op in Operations(new_)
    requires OfBodies(old_, new_, op, (x, y) => ReadablePair(show, x, old_, y, new_),
                      (y, x) => ReadablePair(show, y, new_, x, old_))
    requires OfBodies(old_, new_, op, (x, y) => DistinctPair(show, x, old_, y, new_),
                      (y, x) => DistinctPair(show, y, new_, x, old_))
    ensures ReadablePair(show, RequestNode(old_, op), old_, RequestNode(new_, op), new_)
    ensures DistinctPair(show, RequestNode(old_, op), old_, RequestNode(new_, op), new_)
    ensures forall s :: s in Statuses(old_, op) && s in Statuses(new_, op) && IsSuccess(s) ==>
              && ReadablePair(show, ResponseNode(new_, op, s), new_, ResponseNode(old_, op, s), old_)
              && DistinctPair(show, ResponseNode(new_, op, s), new_, ResponseNode(old_, op, s), old_)
  {
    hide Operations, RequestNode, ResponseNode, Statuses, ReadablePair, DistinctPair, IsSuccess;
  }

  lemma {:induction false} KeptInTerms(show: Printer, old_: Fields, new_: Fields, op: Operation)
    requires op in Operations(old_) && op in Operations(new_)
    ensures KeptInSight(At(show, old_, op), At(show, new_, op)) <==>
              && (var a, b := ShapeOf(show, RequestNode(old_, op), old_), ShapeOf(show, RequestNode(new_, op), new_);
                  ShapesFit(a, b) && KeepsRequiredProperties(a, b))
              && (forall s :: s in Statuses(old_, op) && s in Statuses(new_, op) && IsSuccess(s) ==>
                    ResponseKept(show, ResponseNode(new_, op, s), new_, ResponseNode(old_, op, s), old_))
              && Statuses(old_, op) <= Statuses(new_, op)
              && EverySelectionAccepted(At(show, old_, op), At(show, new_, op))
  {
    AtIs(show, old_, op);
    AtIs(show, new_, op);
    SelectionsAccepted(At(show, old_, op), At(show, new_, op));
    hide Operations, At, RequestNode, ResponseNode, Statuses, ShapeOf, ShapesFit, EverySelectionAccepted, IsSuccess,
      KeepsRequiredProperties;
  }

  lemma {:induction false} WorksInTerms(show: Printer, old_: Fields, new_: Fields, op: Operation)
    requires op in Operations(old_) && op in Operations(new_)
    ensures WorksAndMore(show, old_, new_, op) <==>
              && (var x, y := RequestNode(old_, op), RequestNode(new_, op);
                  && AlwaysFits(show, x, old_, y, new_) && SharedMeanSame(show, x, old_, y, new_)
                  && RequiredOf(x) * Declared(x) <= Declared(y))
              && (forall s :: s in Statuses(old_, op) && s in Statuses(new_, op) && IsSuccess(s) ==>
                    ResponseWorks(show, ResponseNode(new_, op, s), new_, ResponseNode(old_, op, s), old_))
              && Statuses(old_, op) <= Statuses(new_, op)
              && EverySelectionAccepted(At(show, old_, op), At(show, new_, op))
  {
    hide Operations, At, RequestNode, ResponseNode, Statuses, EverySelectionAccepted, IsSuccess, AlwaysFits,
      SharedMeanSame, RequiredOf, Declared;
  }

  ghost predicate ResponseKept(show: Printer, y: Fields, e: Fields, x: Fields, d: Fields) {
    ShapesFit(ShapeOf(show, y, e), ShapeOf(show, x, d))
    && ShapeOf(show, x, d).props.Keys <= ShapeOf(show, y, e).props.Keys
  }

  ghost predicate ResponseWorks(show: Printer, y: Fields, e: Fields, x: Fields, d: Fields) {
    AlwaysFits(show, y, e, x, d) && SharedMeanSame(show, y, e, x, d) && Declared(x) <= Declared(y)
  }

  lemma {:induction false} ResponseExactly(show: Printer, y: Fields, e: Fields, x: Fields, d: Fields)
    requires ReadablePair(show, y, e, x, d) && DistinctPair(show, y, e, x, d)
    ensures ResponseKept(show, y, e, x, d) <==> ResponseWorks(show, y, e, x, d)
  {
    ShapesFitExactly(show, y, e, x, d);
    ShapeIs(show, x, d);
    ShapeIs(show, y, e);
    hide ReadablePair, DistinctPair, ShapesFit, AlwaysFits, SharedMeanSame, ShapeOf, Declared, TypeOf, PropNode;
  }

  lemma {:induction false} RequestExactly(show: Printer, x: Fields, d: Fields, y: Fields, e: Fields)
    requires ReadablePair(show, x, d, y, e) && DistinctPair(show, x, d, y, e)
    ensures var a, b := ShapeOf(show, x, d), ShapeOf(show, y, e);
            ShapesFit(a, b) && KeepsRequiredProperties(a, b) <==>
              && AlwaysFits(show, x, d, y, e) && SharedMeanSame(show, x, d, y, e)
              && RequiredOf(x) * Declared(x) <= Declared(y)
  {
    ShapesFitExactly(show, x, d, y, e);
    ShapeIs(show, x, d);
    ShapeIs(show, y, e);
    hide ReadablePair, DistinctPair, ShapesFit, AlwaysFits, SharedMeanSame, ShapeOf, Declared, RequiredOf, TypeOf,
      PropNode;
  }
}
