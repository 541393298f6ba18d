/** What the silence of the contract check is worth to a client of the old contract: messages with values, and
    whether those that one side sends are accepted by the other. */
module Clients {
  import opened Signatures
  import opened Readings
  import opened Meanings
  import opened OpenApi
  import opened Silence

  // --------------------------------------------------------------------------------------------
  // Messages
  // --------------------------------------------------------------------------------------------

  /** A flat message: the names it carries, each with its value. */
  type Message = map<string, Json>

  /** An object schema as one reader sees it: the required names, and the values each property accepts. */
  datatype Contract = Contract(required: set<string>, accepts: map<string, Json -> bool>)

  /** The message has every required name, and a value that is accepted for every declared one. */
  predicate Fits(c: Contract, message: Message) {
    && c.required <= message.Keys
    && forall n :: n in message && n in c.accepts ==> c.accepts[n](message[n])
  }

  /** What a party that follows the schema sends: it fits, and carries no name that the schema does not mention. */
  predicate Sends(c: Contract, message: Message) {
    Fits(c, message) && message.Keys <= c.required + c.accepts.Keys
  }

  ghost predicate EveryMessageFits(sender: Contract, receiver: Contract) {
    forall message :: Sends(sender, message) ==> Fits(receiver, message)
  }

  /** There is a value for every required property. */
  ghost predicate CanSend(c: Contract) {
    forall n :: n in c.required && n in c.accepts ==> exists v :: c.accepts[n](v)
  }

  ghost function Pick(accepts: Json -> bool): (v: Json)
    ensures (exists w :: accepts(w)) ==> accepts(v)
  {
    if exists w :: accepts(w) then var w :| accepts(w); w else Null
  }

  ghost function Least(c: Contract): (message: Message)
    ensures message.Keys == c.required
  {
    map n | n in c.required :: if n in c.accepts then Pick(c.accepts[n]) else Null
  }

  /** Every message of the sender fits the receiver exactly when the sender cannot send any, or the receiver
      requires no more, accepts every value the sender may give a name both declare, and accepts everything for a
      name the sender requires without declaring it. */
  lemma {:induction false} MessagesFit(sender: Contract, receiver: Contract)
    ensures EveryMessageFits(sender, receiver) <==>
              || !CanSend(sender)
              || (&& receiver.required <= sender.required
                  && (forall n, v :: n in sender.accepts && n in receiver.accepts && sender.accepts[n](v) ==>
                        receiver.accepts[n](v))
                  && (forall n, v :: n in sender.required && n !in sender.accepts && n in receiver.accepts ==>
                        receiver.accepts[n](v)))
  {
    if CanSend(sender) && EveryMessageFits(sender, receiver) {
      var least := Least(sender);
      assert Sends(sender, least);
      assert Fits(receiver, least);
      forall n, v | n in receiver.accepts
                    && (if n in sender.accepts then sender.accepts[n](v) else n in sender.required)
        ensures receiver.accepts[n](v)
      {
        var message := least[n := v];
        assert Sends(sender, message);
        assert Fits(receiver, message) && message[n] == v;
      }
    }
    if !CanSend(sender) {
      NothingSent(sender);
    }
  }

  lemma {:induction false} NothingSent(sender: Contract)
    requires !CanSend(sender)
    ensures forall message :: !Sends(sender, message)
  {
    var n :| n in sender.required && n in sender.accepts && !exists v :: sender.accepts[n](v);
    forall message ensures !Sends(sender, message) {
      assert n in message ==> !sender.accepts[n](message[n]);
    }
  }

  // --------------------------------------------------------------------------------------------
  // Two object schemas
  // --------------------------------------------------------------------------------------------

  /** The schema of a property; that of a name which is not declared is empty. */
  function PropNode(node: Fields, doc: Fields, name: string): Fields {
    Resolve(Get(PropertiesOf(node), name), doc)
  }

  function Declared(node: Fields): set<string> {
    Keys(PropertiesOf(node))
  }

  function ContractOf(show: Printer, r: Reader, node: Fields, doc: Fields): (c: Contract)
    ensures c.required == RequiredOf(node) && c.accepts.Keys == Declared(node)
    ensures forall n, v :: n in c.accepts ==> c.accepts[n](v) == Accepts(show, r, PropNode(node, doc, n), doc, v)
  {
    Contract(RequiredOf(node),
             map n | n in Declared(node) :: (v: Json) => Accepts(show, r, PropNode(node, doc, n), doc, v))
  }

  lemma {:induction false} Undeclared(node: Fields, doc: Fields, name: string)
    ensures name !in Declared(node) ==> PropNode(node, doc, name) == []
  {
    assert Get([], "$ref") == Null;
  }

  /** Everything the two object schemas declare can be told from a signature. */
  predicate ReadablePair(show: Printer, x: Fields, d: Fields, y: Fields, e: Fields) {
    && (forall n :: n in Declared(x) ==> Readable(show, PropNode(x, d, n)))
    && (forall n :: n in Declared(y) ==> Readable(show, PropNode(y, e, n)))
    && (forall n :: n in Declared(x) && n in Declared(y) ==>
          && ToldApart(show, PropNode(x, d, n), PropNode(y, e, n))
          && ToldApart(show, PropNode(y, e, n), PropNode(x, d, n)))
  }

  predicate DistinctPair(show: Printer, x: Fields, d: Fields, y: Fields, e: Fields) {
    && (forall n :: n in Declared(x) ==> Distinct(show, PropNode(x, d, n)))
    && (forall n :: n in Declared(y) ==> Distinct(show, PropNode(y, e, n)))
  }

  /** Where the sender may give a name a value, what the signature leaves out demands no more of the receiver's
      schema than of the sender's. */
  ghost predicate NoMoreDemanded(r: Reader, x: Fields, d: Fields, y: Fields, e: Fields) {
    forall n, v :: (n in Declared(y) && (n in Declared(x) || n in RequiredOf(x))
                    && r.demands(PropNode(x, d, n), d, v)) ==> r.demands(PropNode(y, e, n), e, v)
  }

  /** What the check asks of a sender and a receiver: no more names are required, signatures agree, and what is
      sent untyped is read as anything. */
  predicate ShapesFit(sender: Shape, receiver: Shape) {
    && receiver.required <= sender.required && AgreeOnTypes(sender, receiver)
    && forall n :: n in sender.required && n !in sender.props && n in receiver.props ==> receiver.props[n] == "any"
  }

  lemma {:induction false} ShapeIs(show: Printer, node: Fields, doc: Fields)
    ensures var s := ShapeOf(show, node, doc);
            && s.required == RequiredOf(node) && s.props.Keys == Declared(node)
            && forall n :: n in s.props ==> s.props[n] == TypeOf(show, PropNode(node, doc, n))
  {
    ShapeParts(show, node, doc);
    hide ShapeOf, RequiredOf, PropertiesOf, TypeOf, Resolve, Get;
  }

  /** Equal signatures accept the same values, as far as they are read. */
  lemma {:induction false} ValueCarries(show: Printer, r: Reader, a: Fields, b: Fields, v: Json)
    requires Readable(show, a) && Readable(show, b) && ToldApart(show, a, b) && TypeOf(show, a) == TypeOf(show, b)
    ensures AcceptsRead(show, r, a, v) ==> AcceptsRead(show, r, b, v)
  {
    SignatureIsRead(show, a, b);
    ReadImplies(show, r, a, b, v);
    hide *;
  }

  lemma {:induction false} AnyTakesAll(show: Printer, r: Reader, node: Fields, v: Json)
    requires Readable(show, node) && TypeOf(show, node) == "any"
    ensures AcceptsRead(show, r, node, v)
  {
    AnyReadsNothing(show, node);
    hide Readable, TypeOf;
  }

  /** Shapes that fit carry every value over, for every reader to whom the receiver demands no more. */
  lemma {:induction false} ShapesCarryValues(show: Printer, r: Reader, x: Fields, d: Fields, y: Fields, e: Fields)
    requires r.Valid() && ReadablePair(show, x, d, y, e) && NoMoreDemanded(r, x, d, y, e)
    requires ShapesFit(ShapeOf(show, x, d), ShapeOf(show, y, e))
    ensures EveryMessageFits(ContractOf(show, r, x, d), ContractOf(show, r, y, e))
  {
    ShapeIs(show, x, d);
    ShapeIs(show, y, e);
    var a, b := ContractOf(show, r, x, d), ContractOf(show, r, y, e);
    hide ShapeOf, ContractOf, RequiredOf, Declared, PropNode, TypeOf, Readable, ToldApart, AcceptsRead;
    forall message | Sends(a, message) ensures Fits(b, message) {
      forall n | n in message && n in b.accepts ensures b.accepts[n](message[n]) {
        Undeclared(x, d, n);
        if n in a.accepts {
          ValueCarries(show, r, PropNode(x, d, n), PropNode(y, e, n), message[n]);
        } else {
          AnyTakesAll(show, r, PropNode(y, e, n), message[n]);
        }
      }
    }
  }

  // --------------------------------------------------------------------------------------------
  // Exactly
  // --------------------------------------------------------------------------------------------

  ghost predicate IsShallow(r: Reader) {
    forall node, doc, v :: r.demands(node, doc, v)
  }

  /** Whatever the types, formats and references mean, every message of the one fits the other. */
  ghost predicate AlwaysFits(show: Printer, x: Fields, d: Fields, y: Fields, e: Fields) {
    forall r :: IsShallow(r) ==> EveryMessageFits(ContractOf(show, r, x, d), ContractOf(show, r, y, e))
  }

  ghost predicate SharedMeanSame(show: Printer, x: Fields, d: Fields, y: Fields, e: Fields) {
    forall n :: n in Declared(x) && n in Declared(y) ==> SameMeaning(show, PropNode(x, d, n), PropNode(y, e, n))
  }

  /** All values that the properties enumerate. */
  function AllItems(props: Fields, doc: Fields): seq<Json> {
    if props == [] then [] else EnumItems(Resolve(props[0].1, doc)) + AllItems(props[1..], doc)
  }

  lemma {:induction false} ItemsOfProperty(props: Fields, doc: Fields, name: string, v: Json)
    requires name in Keys(props) && v in EnumItems(Resolve(Get(props, name), doc))
    ensures v in AllItems(props, doc)
  {
    hide Resolve, EnumItems;
    if props[0].0 != name {
      assert forall i :: 0 < i < |props| ==> props[i] == props[1..][i - 1];
      ItemsOfProperty(props[1..], doc, name, v);
    }
  }

  /** The reader that accepts every value but one. */
  function Except(z: Json): (string, Json) -> bool {
    (s, v) => v != z
  }

  lemma {:induction false} ExceptAccepts(show: Printer, node: Fields, z: Json)
    requires Readable(show, node) && Candidate(node) != z
    ensures AcceptsRead(show, Shallow(Except(z), Except(z), Except(z)), node, Candidate(node))
    ensures AcceptsRead(show, Shallow(Except(z), Except(z), Except(z)), node, z) ==>
              Get(node, "type") == Null && !Truthy(Get(node, "format")) && !Truthy(Get(node, "$ref"))
  {
    var r := Shallow(Except(z), Except(z), Except(z));
    assert Get(node, "type") != Null ==> r.hasType(TypeNames(show, node)[0], Candidate(node));
    assert Get(node, "enum").Arr? ==> Candidate(node) in EnumItems(node);
  }

  /** A name that is sent untyped, and always fits, is read as anything. */
  lemma {:induction false} UntypedIsAny(show: Printer, x: Fields, d: Fields, y: Fields, e: Fields, name: string)
    requires ReadablePair(show, x, d, y, e) && AlwaysFits(show, x, d, y, e)
    requires name in RequiredOf(x) && name !in Declared(x) && name in Declared(y)
    ensures TypeOf(show, PropNode(y, e, name)) == "any"
  {
    var node := PropNode(y, e, name);
    var z := Outside(AllItems(PropertiesOf(x), d) + EnumItems(node) + [Null]);
    var r := Shallow(Except(z), Except(z), Except(z));
    var a, b := ContractOf(show, r, x, d), ContractOf(show, r, y, e);
    assert EveryMessageFits(a, b);
    MessagesFit(a, b);
    NotZ(show, x, d, node, z);
    ExceptAccepts(show, node, z);
    assert b.accepts[name](z);
    AnyReadsNothing(show, node);
    assert z !in EnumItems(node);
    hide TypeOf, Readable;
  }

  /** With the reader that rejects a value outside all enumerations, the sender can still send. */
  lemma {:induction false} NotZ(show: Printer, x: Fields, d: Fields, node: Fields, z: Json)
    requires forall n :: n in Declared(x) ==> Readable(show, PropNode(x, d, n))
    requires z !in AllItems(PropertiesOf(x), d) + EnumItems(node) + [Null]
    ensures Candidate(node) != z
    ensures CanSend(ContractOf(show, Shallow(Except(z), Except(z), Except(z)), x, d))
  {
    var r := Shallow(Except(z), Except(z), Except(z));
    var c := ContractOf(show, r, x, d);
    assert Null in AllItems(PropertiesOf(x), d) + EnumItems(node) + [Null];
    assert Candidate(node) == Null || Candidate(node) in EnumItems(node);
    hide ContractOf, Readable, AcceptsRead, AllItems, EnumItems, RequiredOf;
    forall n | n in c.required && n in c.accepts ensures exists v :: c.accepts[n](v) {
      var p := PropNode(x, d, n);
      CandidateComesFrom(p);
      if Candidate(p) in EnumItems(p) {
        ItemsOfProperty(PropertiesOf(x), d, n, Candidate(p));
      }
      ExceptAccepts(show, p, z);
      assert c.accepts[n](Candidate(p));
    }
  }

  lemma {:induction false} CandidateComesFrom(node: Fields)
    ensures Candidate(node) == Null || Candidate(node) in EnumItems(node)
  {
  }

  /** Shapes fit exactly when every message fits under every meaning of what is read, and the properties both
      declare mean the same. */
  lemma {:induction false} ShapesFitExactly(show: Printer, x: Fields, d: Fields, y: Fields, e: Fields)
    requires ReadablePair(show, x, d, y, e) && DistinctPair(show, x, d, y, e)
    ensures ShapesFit(ShapeOf(show, x, d), ShapeOf(show, y, e))
       <==> AlwaysFits(show, x, d, y, e) && SharedMeanSame(show, x, d, y, e)
  {
    TypesMeanSame(show, x, d, y, e);
    if ShapesFit(ShapeOf(show, x, d), ShapeOf(show, y, e)) {
      forall r | IsShallow(r) ensures EveryMessageFits(ContractOf(show, r, x, d), ContractOf(show, r, y, e)) {
        ShapesCarryValues(show, r, x, d, y, e);
      }
    }
    if AlwaysFits(show, x, d, y, e) && SharedMeanSame(show, x, d, y, e) {
      ShapeIs(show, x, d);
      ShapeIs(show, y, e);
      RequiresNoMore(show, x, d, y, e);
      forall n | n in RequiredOf(x) && n !in Declared(x) && n in Declared(y)
        ensures TypeOf(show, PropNode(y, e, n)) == "any"
      {
        UntypedIsAny(show, x, d, y, e, n);
      }
      hide ReadablePair, DistinctPair, AlwaysFits, SharedMeanSame, TypeOf, PropNode, Declared, RequiredOf, ShapeOf;
    }
  }

  lemma {:induction false} RequiresNoMore(show: Printer, x: Fields, d: Fields, y: Fields, e: Fields)
    requires ReadablePair(show, x, d, y, e) && AlwaysFits(show, x, d, y, e)
    ensures RequiredOf(y) <= RequiredOf(x)
  {
    var z := Outside(AllItems(PropertiesOf(x), d) + EnumItems([]) + [Null]);
    var r := Shallow(Except(z), Except(z), Except(z));
    var a, b := ContractOf(show, r, x, d), ContractOf(show, r, y, e);
    assert EveryMessageFits(a, b);
    NotZ(show, x, d, [], z);
    MessagesFit(a, b);
    hide ReadablePair, AlwaysFits, EveryMessageFits, CanSend;
  }

  lemma {:induction false} TypesMeanSame(show: Printer, x: Fields, d: Fields, y: Fields, e: Fields)
    requires ReadablePair(show, x, d, y, e) && DistinctPair(show, x, d, y, e)
    ensures AgreeOnTypes(ShapeOf(show, x, d), ShapeOf(show, y, e)) <==> SharedMeanSame(show, x, d, y, e)
  {
    ShapeIs(show, x, d);
    ShapeIs(show, y, e);
    forall n | n in Declared(x) && n in Declared(y)
      ensures TypeOf(show, PropNode(x, d, n)) == TypeOf(show, PropNode(y, e, n))
         <==> SameMeaning(show, PropNode(x, d, n), PropNode(y, e, n))
    {
      SignatureIsRead(show, PropNode(x, d, n), PropNode(y, e, n));
      MeaningIsRead(show, PropNode(x, d, n), PropNode(y, e, n));
    }
    hide ReadablePair, DistinctPair, TypeOf, PropNode, Declared, SameMeaning, ShapeOf;
  }
}
