/** The values that a schema accepts, and when two schemas accept the same ones. */
module Meanings {
  import opened Signatures
  import opened Readings

  /** How a party reads a schema: which values have a named type, a format or meet an outside reference, and what
      the members that a signature leaves out (items, nested properties, ranges) demand in their document. */
  datatype Reader = Reader(
      hasType: (string, Json) -> bool, hasFormat: (string, Json) -> bool, refers: (string, Json) -> bool,
      demands: (Fields, Fields, Json) -> bool)
  {
    /** An empty schema demands nothing. */
    ghost predicate Valid() {
      forall doc, v :: demands([], doc, v)
    }
  }

  /** The reader that looks at no more than a signature does. */
  function Shallow(
      hasType: (string, Json) -> bool, hasFormat: (string, Json) -> bool, refers: (string, Json) -> bool): Reader
  {
    Reader(hasType, hasFormat, refers, (node, doc, v) => true)
  }

  /** The value has one of the types, the format, is enumerated, and meets the reference, where there are such. */
  predicate AcceptsRead(show: Printer, r: Reader, node: Fields, v: Json) {
    && (Get(node, "type") != Null ==>
          exists i :: 0 <= i < |TypeNames(show, node)| && r.hasType(TypeNames(show, node)[i], v))
    && (Truthy(Get(node, "format")) ==> r.hasFormat(show(Get(node, "format")), v))
    && (Get(node, "enum").Arr? ==> v in EnumItems(node))
    && (Truthy(Get(node, "$ref")) ==> r.refers(show(Get(node, "$ref")), v))
  }

  predicate Accepts(show: Printer, r: Reader, node: Fields, doc: Fields, v: Json) {
    AcceptsRead(show, r, node, v) && r.demands(node, doc, v)
  }

  /** Whatever the types, formats and references mean, both schemas accept the same values. */
  ghost predicate SameMeaning(show: Printer, a: Fields, b: Fields) {
    forall r, v :: AcceptsRead(show, r, a, v) <==> AcceptsRead(show, r, b, v)
  }

  predicate NoRepeats<T(==)>(xs: seq<T>) {
    forall i, j :: 0 <= i < j < |xs| ==> xs[i] != xs[j]
  }

  /** The lists name nothing twice. */
  predicate Distinct(show: Printer, node: Fields) {
    NoRepeats(TypeNames(show, node)) && NoRepeats(Printed(show, EnumItems(node)))
  }

  /** Different enumerated values print differently. */
  predicate ToldApart(show: Printer, a: Fields, b: Fields) {
    forall x, y :: x in EnumItems(a) && y in EnumItems(b) && show(x) == show(y) ==> x == y
  }

  // --------------------------------------------------------------------------------------------
  // The same read, the same meaning
  // --------------------------------------------------------------------------------------------

  lemma {:induction false} PrintedMember(show: Printer, values: seq<Json>, s: string)
    ensures s in Printed(show, values) <==> exists v :: v in values && show(v) == s
  {
    if s in Printed(show, values) {
      var i :| 0 <= i < |values| && Printed(show, values)[i] == s;
      assert values[i] in values;
    }
    if v :| v in values && show(v) == s {
      var i :| 0 <= i < |values| && values[i] == v;
      assert Printed(show, values)[i] == s;
    }
  }

  lemma {:induction false} SameMembers<T>(a: seq<T>, b: seq<T>, x: T)
    requires multiset(a) == multiset(b)
    ensures x in a <==> x in b
  {
    assert x in a <==> x in multiset(a);
  }

  lemma {:induction false} EnumHolds(show: Printer, a: Fields, b: Fields, v: Json)
    requires ToldApart(show, a, b) && multiset(Printed(show, EnumItems(a))) == multiset(Printed(show, EnumItems(b)))
    ensures v in EnumItems(a) ==> v in EnumItems(b)
  {
    hide Printed, EnumItems;
    if v in EnumItems(a) {
      PrintedMember(show, EnumItems(a), show(v));
      SameMembers(Printed(show, EnumItems(a)), Printed(show, EnumItems(b)), show(v));
      PrintedMember(show, EnumItems(b), show(v));
    }
  }

  lemma {:induction false} TypeHolds(show: Printer, r: Reader, a: Fields, b: Fields, v: Json)
    requires multiset(TypeNames(show, a)) == multiset(TypeNames(show, b))
    requires exists i :: 0 <= i < |TypeNames(show, a)| && r.hasType(TypeNames(show, a)[i], v)
    ensures exists i :: 0 <= i < |TypeNames(show, b)| && r.hasType(TypeNames(show, b)[i], v)
  {
    hide TypeNames;
    var i :| 0 <= i < |TypeNames(show, a)| && r.hasType(TypeNames(show, a)[i], v);
    var t := TypeNames(show, a)[i];
    SameMembers(TypeNames(show, a), TypeNames(show, b), t);
    var j :| 0 <= j < |TypeNames(show, b)| && TypeNames(show, b)[j] == t;
  }

  lemma {:induction false} ReadImplies(show: Printer, r: Reader, a: Fields, b: Fields, v: Json)
    requires Readable(show, a) && Readable(show, b) && ToldApart(show, a, b) && SameRead(show, a, b)
    ensures AcceptsRead(show, r, a, v) ==> AcceptsRead(show, r, b, v)
  {
    if AcceptsRead(show, r, a, v) {
      SizeOfNames(show, a, b);
      if Get(b, "type") != Null {
        TypeHolds(show, r, a, b, v);
      }
      EnumHolds(show, a, b, v);
      hide Readable, ToldApart, TypeNames, EnumItems, Get, Truthy;
    }
  }

  lemma {:induction false} SizeOfNames(show: Printer, a: Fields, b: Fields)
    requires Readable(show, a) && Readable(show, b) && SameRead(show, a, b)
    ensures Get(a, "type") == Null <==> Get(b, "type") == Null
  {
    SizesAgree(TypeNames(show, a), TypeNames(show, b));
    assert Get(a, "type") == Null ==> TypeNames(show, a) == [];
    assert Get(b, "type") == Null ==> TypeNames(show, b) == [];
  }

  // --------------------------------------------------------------------------------------------
  // The same meaning, the same read
  // --------------------------------------------------------------------------------------------

  /** A value outside a list. */
  function Longer(values: seq<Json>): (n: nat)
    ensures forall v :: v in values && v.Str? ==> |v.s| < n
  {
    if values == [] then 0
    else
      assert forall v :: v in values <==> v == values[0] || v in values[1..];
      var n := Longer(values[1..]);
      if values[0].Str? && |values[0].s| >= n then |values[0].s| + 1 else n
  }

  function Outside(values: seq<Json>): (v: Json)
    ensures v !in values
  {
    Str(seq(Longer(values), _ => ' '))
  }

  /** A value that the enumeration lets through. */
  function Candidate(node: Fields): Json {
    if EnumItems(node) != [] then EnumItems(node)[0] else Null
  }

  lemma {:induction false} CandidateIsAccepted(show: Printer, r: Reader, node: Fields)
    requires Readable(show, node)
    requires forall t, v :: r.hasType(t, v)
    requires Truthy(Get(node, "format")) ==> r.hasFormat(show(Get(node, "format")), Candidate(node))
    requires Truthy(Get(node, "$ref")) ==> r.refers(show(Get(node, "$ref")), Candidate(node))
    ensures AcceptsRead(show, r, node, Candidate(node))
  {
    var names := TypeNames(show, node);
    if Get(node, "type") != Null {
      assert r.hasType(names[0], Candidate(node));
    }
    assert Get(node, "enum").Arr? ==> Candidate(node) in EnumItems(node);
  }

  function All(): (string, Json) -> bool {
    (s, v) => true
  }

  function Just(name: string): (string, Json) -> bool {
    (s, v) => s == name
  }

  function Never(): (string, Json) -> bool {
    (s, v) => false
  }

  lemma {:induction false} Untyped(show: Printer, a: Fields, b: Fields)
    requires Readable(show, a) && Readable(show, b) && Get(a, "type") != Null && Get(b, "type") == Null
    ensures !SameMeaning(show, a, b)
  {
    var r, v := Shallow(Never(), All(), All()), Candidate(b);
    assert Get(b, "enum").Arr? ==> v in EnumItems(b);
    assert AcceptsRead(show, r, b, v) && !AcceptsRead(show, r, a, v);
  }

  /** The reader that knows one type tells the schema that names it from the one that does not. */
  lemma {:induction false} OneType(show: Printer, a: Fields, b: Fields, t: string)
    requires Readable(show, a) && Readable(show, b) && t in TypeNames(show, a) && t !in TypeNames(show, b)
    requires Get(b, "type") != Null
    ensures !SameMeaning(show, a, b)
  {
    var r, v := Shallow(Just(t), All(), All()), Candidate(a);
    var i :| 0 <= i < |TypeNames(show, a)| && TypeNames(show, a)[i] == t;
    assert r.hasType(TypeNames(show, a)[i], v);
    assert Get(a, "enum").Arr? ==> v in EnumItems(a);
    assert AcceptsRead(show, r, a, v) && !AcceptsRead(show, r, b, v);
  }

  lemma {:induction false} SameTypes(show: Printer, a: Fields, b: Fields, t: string)
    requires Readable(show, a) && Readable(show, b) && SameMeaning(show, a, b)
    ensures Get(a, "type") != Null ==> Get(b, "type") != Null
    ensures t in TypeNames(show, a) ==> t in TypeNames(show, b)
  {
    assert Get(a, "type") == Null ==> TypeNames(show, a) == [];
    hide Readable, SameMeaning, TypeNames;
    if Get(a, "type") != Null && Get(b, "type") == Null {
      Untyped(show, a, b);
    } else if t in TypeNames(show, a) && t !in TypeNames(show, b) {
      OneType(show, a, b, t);
    }
  }

  lemma {:induction false} OneFormat(show: Printer, a: Fields, b: Fields)
    requires Readable(show, a) && Readable(show, b) && Truthy(Get(a, "format"))
    requires Truthy(Get(b, "format")) ==> show(Get(a, "format")) != show(Get(b, "format"))
    ensures !SameMeaning(show, a, b)
  {
    var r := Shallow(All(), if Truthy(Get(b, "format")) then Just(show(Get(b, "format"))) else Never(), All());
    CandidateIsAccepted(show, r, b);
    assert !AcceptsRead(show, r, a, Candidate(b));
  }

  lemma {:induction false} OneRef(show: Printer, a: Fields, b: Fields)
    requires Readable(show, a) && Readable(show, b) && Truthy(Get(a, "$ref"))
    requires Truthy(Get(b, "$ref")) ==> show(Get(a, "$ref")) != show(Get(b, "$ref"))
    ensures !SameMeaning(show, a, b)
  {
    var r := Shallow(All(), All(), if Truthy(Get(b, "$ref")) then Just(show(Get(b, "$ref"))) else Never());
    CandidateIsAccepted(show, r, b);
    assert !AcceptsRead(show, r, a, Candidate(b));
  }

  lemma {:induction false} SameTexts(show: Printer, a: Fields, b: Fields)
    requires Readable(show, a) && Readable(show, b) && SameMeaning(show, a, b)
    ensures Truthy(Get(a, "format")) ==>
              Truthy(Get(b, "format")) && show(Get(a, "format")) == show(Get(b, "format"))
    ensures Truthy(Get(a, "$ref")) ==> Truthy(Get(b, "$ref")) && show(Get(a, "$ref")) == show(Get(b, "$ref"))
  {
    hide Readable, SameMeaning;
    if Truthy(Get(a, "format")) && (Truthy(Get(b, "format")) ==> show(Get(a, "format")) != show(Get(b, "format"))) {
      OneFormat(show, a, b);
    }
    if Truthy(Get(a, "$ref")) && (Truthy(Get(b, "$ref")) ==> show(Get(a, "$ref")) != show(Get(b, "$ref"))) {
      OneRef(show, a, b);
    }
  }

  lemma {:induction false} AllAccepts(show: Printer, node: Fields, v: Json)
    requires Readable(show, node)
    ensures AcceptsRead(show, Shallow(All(), All(), All()), node, v) <==>
              (Get(node, "enum").Arr? ==> v in EnumItems(node))
  {
    var r := Shallow(All(), All(), All());
    assert Get(node, "type") != Null ==> r.hasType(TypeNames(show, node)[0], v);
  }

  lemma {:induction false} SameEnums(show: Printer, a: Fields, b: Fields, s: string)
    requires Readable(show, a) && Readable(show, b) && SameMeaning(show, a, b)
    ensures Get(a, "enum").Arr? ==> Get(b, "enum").Arr?
    ensures s in Printed(show, EnumItems(a)) ==> s in Printed(show, EnumItems(b))
  {
    var r := Shallow(All(), All(), All());
    forall v ensures (Get(a, "enum").Arr? ==> v in EnumItems(a)) <==> (Get(b, "enum").Arr? ==> v in EnumItems(b)) {
      AllAccepts(show, a, v);
      AllAccepts(show, b, v);
      assert AcceptsRead(show, r, a, v) <==> AcceptsRead(show, r, b, v);
    }
    hide AcceptsRead, Readable, SameMeaning;
    var outside := Outside(EnumItems(a));
    assert Get(a, "enum").Arr? ==> Get(b, "enum").Arr?;
    PrintedMember(show, EnumItems(a), s);
    PrintedMember(show, EnumItems(b), s);
    assert !Get(a, "enum").Arr? ==> EnumItems(a) == [];
  }

  lemma {:induction false} SameMultisets<T>(a: seq<T>, b: seq<T>)
    requires NoRepeats(a) && NoRepeats(b) && forall x :: x in a <==> x in b
    ensures multiset(a) == multiset(b)
  {
    forall x ensures multiset(a)[x] == multiset(b)[x] {
      Once(a, x);
      Once(b, x);
    }
  }

  lemma {:induction false} Once<T>(a: seq<T>, x: T)
    requires NoRepeats(a)
    ensures multiset(a)[x] == if x in a then 1 else 0
  {
    if a != [] {
      var n := |a| - 1;
      assert a == a[..n] + [a[n]];
      Once(a[..n], x);
      assert x in a <==> x in a[..n] || x == a[n];
      assert a[n] !in a[..n];
    }
  }

  /** For readable schemas that name nothing twice, the same is read exactly when both accept the same values
      under every meaning of the types, the formats and the references. */
  lemma {:induction false} MeaningIsRead(show: Printer, a: Fields, b: Fields)
    requires Readable(show, a) && Readable(show, b) && Distinct(show, a) && Distinct(show, b)
    requires ToldApart(show, a, b) && ToldApart(show, b, a)
    ensures SameRead(show, a, b) <==> SameMeaning(show, a, b)
  {
    if SameRead(show, a, b) {
      assert SameRead(show, b, a);
      forall r, v ensures AcceptsRead(show, r, a, v) <==> AcceptsRead(show, r, b, v) {
        ReadImplies(show, r, a, b, v);
        ReadImplies(show, r, b, a, v);
      }
    }
    if SameMeaning(show, a, b) {
      assert SameMeaning(show, b, a);
      MeaningGivesRead(show, a, b);
    }
  }

  lemma {:induction false} MeaningGivesRead(show: Printer, a: Fields, b: Fields)
    requires Readable(show, a) && Readable(show, b) && Distinct(show, a) && Distinct(show, b)
    requires SameMeaning(show, a, b) && SameMeaning(show, b, a)
    ensures SameRead(show, a, b)
  {
    forall s ensures s in TypeNames(show, a) <==> s in TypeNames(show, b) {
      SameTypes(show, a, b, s);
      SameTypes(show, b, a, s);
    }
    forall s ensures s in Printed(show, EnumItems(a)) <==> s in Printed(show, EnumItems(b)) {
      SameEnums(show, a, b, s);
      SameEnums(show, b, a, s);
    }
    SameEnums(show, a, b, "");
    SameEnums(show, b, a, "");
    SameTexts(show, a, b);
    SameTexts(show, b, a);
    hide Readable, SameMeaning, TypeNames, EnumItems, Printed, Get, Truthy, NoRepeats;
    SameMultisets(TypeNames(show, a), TypeNames(show, b));
    SameMultisets(Printed(show, EnumItems(a)), Printed(show, EnumItems(b)));
  }

  /** Nothing is read of the schema, and its signature is "any". */
  predicate ReadsNothing(node: Fields) {
    && Get(node, "type") == Null && !Truthy(Get(node, "format")) && !Get(node, "enum").Arr?
    && !Truthy(Get(node, "$ref"))
  }

  lemma {:induction false} AnyReadsNothing(show: Printer, node: Fields)
    requires Readable(show, node)
    ensures TypeOf(show, node) == "any" <==> ReadsNothing(node)
  {
    NeverAny(show, node);
    assert TypeOf(show, node) == "any" <==> Parts(show, node) == [];
    NoneOfFour(TypePart(show, Get(node, "type")), FormatPart(show, Get(node, "format")),
               EnumPart(show, Get(node, "enum")), RefPart(show, Get(node, "$ref")));
    hide Readable, TypeOf;
  }

  /** A schema accepts everything, whatever the meanings, exactly when nothing is read of it. */
  lemma {:induction false} AcceptsAll(show: Printer, node: Fields)
    requires Readable(show, node)
    ensures (forall r, v :: AcceptsRead(show, r, node, v)) <==> ReadsNothing(node)
  {
    if forall r, v :: AcceptsRead(show, r, node, v) {
      assert AcceptsRead(show, Shallow(Never(), Never(), Never()), node, Outside(EnumItems(node)));
    }
  }
}
