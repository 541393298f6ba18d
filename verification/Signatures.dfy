/** JSON documents, schema references and type signatures, as `scripts/check-openapi-compat.py` reads them. How
    a JSON value prints is a parameter. */
module Signatures {
  import opened Wrappers
  import opened Sequences
  import opened Sorting
  import opened Text

  datatype Json =
    | Null
    | Bool(b: bool)
    | Num(n: real)
    | Str(s: string)
    | Arr(items: seq<Json>)
    | Obj(fields: Fields)

  /** An object's members, in the order the file gives them. */
  type Fields = seq<(string, Json)>

  type Printer = Json -> string

  function Keys(fields: Fields): set<string> {
    set i | 0 <= i < |fields| :: fields[i].0
  }

  /** `dict.get`; an absent member reads as null. */
  function Get(fields: Fields, key: string): (value: Json)
    ensures key !in Keys(fields) ==> value == Null
  {
    if fields == [] then Null
    else
      assert fields[0].0 in Keys(fields);
      assert forall i :: 0 < i < |fields| ==> fields[i] == fields[1..][i - 1];
      if fields[0].0 == key then fields[0].1 else Get(fields[1..], key)
  }

  /** The first member of a name is the one that is read. */
  lemma {:induction false} GetIsFirst(fields: Fields, k: nat)
    requires k < |fields| && forall i :: 0 <= i < k ==> fields[i].0 != fields[k].0
    ensures Get(fields, fields[k].0) == fields[k].1
  {
    if k > 0 {
      GetIsFirst(fields[1..], k - 1);
    }
  }

  /** A container that is absent, null or of the wrong kind reads as empty. */
  function FieldsOf(value: Json): Fields {
    if value.Obj? then value.fields else []
  }

  function ItemsOf(value: Json): seq<Json> {
    if value.Arr? then value.items else []
  }

  function Truthy(value: Json): bool {
    match value
    case Null => false
    case Bool(b) => b
    case Num(n) => n != 0.0
    case Str(s) => s != ""
    case Arr(items) => items != []
    case Obj(fields) => fields != []
  }

  // --------------------------------------------------------------------------------------------
  // References
  // --------------------------------------------------------------------------------------------

  function Schemas(doc: Fields): Fields {
    FieldsOf(Get(FieldsOf(Get(doc, "components")), "schemas"))
  }

  function SchemaPrefix(): string { "#/components/schemas/" }

  function LastSegment(ref: string): string {
    if ref == "" then ""
    else if '/' in ref[1..] then LastSegment(ref[1..])
    else if ref[0] == '/' then ref[1..]
    else ref
  }

  /** The schema that a node refers to. */
  function Target(node: Json): Option<string> {
    match Get(FieldsOf(node), "$ref")
    case Str(ref) =>
      if |SchemaPrefix()| <= |ref| && ref[..|SchemaPrefix()|] == SchemaPrefix() then Some(LastSegment(ref)) else None
    case _ => None
  }

  /** `resolve`: follows references, and reads a reference seen before as an empty schema. */
  function ResolveFrom(node: Json, doc: Fields, seen: set<string>): Fields
    decreases |Keys(Schemas(doc)) - seen|
  {
    match Target(node)
    case None => FieldsOf(node)
    case Some(name) =>
      if name in seen then []
      else if name !in Keys(Schemas(doc)) then []
      else
        ShrinksBy(Keys(Schemas(doc)), seen, name);
        ResolveFrom(Get(Schemas(doc), name), doc, seen + {name})
  }

  function Resolve(node: Json, doc: Fields): Fields {
    ResolveFrom(node, doc, {})
  }

  lemma {:induction false} ShrinksBy(all: set<string>, seen: set<string>, name: string)
    requires name in all && name !in seen
    ensures |all - (seen + {name})| < |all - seen|
  {
    assert all - seen == (all - (seen + {name})) + {name};
  }

  /** On the way from `target` to `node` through `seen`, one more name in the guard changes nothing. */
  lemma {:induction false} GuardIsInvisible(doc: Fields, name: string, node: Json, seen: set<string>)
    requires var target := Get(Schemas(doc), name);
             if seen == {} then node == target else Target(target).Some? && Target(target).value in seen
    ensures ResolveFrom(node, doc, seen + {name}) == ResolveFrom(node, doc, seen)
    decreases |Keys(Schemas(doc)) - seen|
  {
    hide Get, Target;
    match Target(node) {
      case None =>
      case Some(next) =>
        if next !in seen && next != name && next in Keys(Schemas(doc)) {
          ShrinksBy(Keys(Schemas(doc)), seen, next);
          GuardIsInvisible(doc, name, Get(Schemas(doc), next), seen + {next});
          assert seen + {name} + {next} == seen + {next} + {name};
        }
    }
  }

  /** A reference means what its schema means, cyclic or not. */
  lemma {:induction false} ReferencesAreTransparent(node: Json, doc: Fields)
    requires Target(node).Some?
    ensures Resolve(node, doc) == Resolve(Get(Schemas(doc), Target(node).value), doc)
  {
    var name := Target(node).value;
    assert {} + {name} == {name};
    GuardIsInvisible(doc, name, Get(Schemas(doc), name), {});
  }

  /** What is resolved no longer refers to a schema of the document. */
  lemma {:induction false} ResolvedIsFinal(node: Json, doc: Fields, seen: set<string>)
    ensures Target(Obj(ResolveFrom(node, doc, seen))) == None
    decreases |Keys(Schemas(doc)) - seen|
  {
    match Target(node) {
      case None =>
        assert node.Obj? ==> Obj(FieldsOf(node)) == node;
      case Some(next) =>
        if next !in seen && next in Keys(Schemas(doc)) {
          ShrinksBy(Keys(Schemas(doc)), seen, next);
          ResolvedIsFinal(Get(Schemas(doc), next), doc, seen + {next});
        }
    }
  }

  /** What is behind the last slash. */
  lemma {:induction false} BehindLastSlash(front: string, name: string)
    requires '/' !in name
    ensures LastSegment(front + "/" + name) == name
  {
    var ref := front + "/" + name;
    assert ref[|front|] == '/';
    if front == "" {
      assert ref[1..] == name;
    } else {
      assert ref[1..] == front[1..] + "/" + name;
      assert ref[1..][|front| - 1] == '/';
      BehindLastSlash(front[1..], name);
    }
  }

  /** Whether a node is the reference to schema `name` of its document. */
  ghost predicate IsReference(node: Json, name: string) {
    node.Obj? && '/' !in name && Get(node.fields, "$ref") == Str("#/components/schemas/" + name)
  }

  lemma {:induction false} ReferenceHasTarget(node: Json, name: string)
    requires IsReference(node, name)
    ensures Target(node) == Some(name)
  {
    var ref := "#/components/schemas/" + name;
    assert ref[..|SchemaPrefix()|] == SchemaPrefix();
    assert ref == "#/components/schemas" + "/" + name;
    BehindLastSlash("#/components/schemas", name);
  }

  /** A reference is read as the schema of that name in the document's components, which is nothing if there is none;
      a node without a reference into them is read as it is. */
  lemma {:induction false} ReferenceNames(node: Json, name: string, doc: Fields, components: Fields, schemas: Fields)
    requires Get(doc, "components") == Obj(components) && Get(components, "schemas") == Obj(schemas)
    ensures IsReference(node, name) ==> Resolve(node, doc) == Resolve(Get(schemas, name), doc)
    ensures IsReference(node, name) && name !in Keys(schemas) ==> Resolve(node, doc) == []
    ensures node.Obj? && Get(node.fields, "$ref") == Null ==> Resolve(node, doc) == node.fields
  {
    if IsReference(node, name) {
      ReferenceHasTarget(node, name);
      ReferencesAreTransparent(node, doc);
      hide IsReference, Resolve;
      if name !in Keys(schemas) {
        NullResolves(doc);
      }
    }
  }

  lemma {:induction false} NullResolves(doc: Fields)
    ensures Resolve(Null, doc) == []
  {
    assert Get([], "$ref") == Null;
  }

  /** Each of the named schemas is a reference to the next, the last one to the first. */
  ghost predicate IsCycle(schemas: Fields, names: seq<string>) {
    names != [] && forall i :: 0 <= i < |names| ==>
      IsReference(Get(schemas, names[i]), names[if i + 1 < |names| then i + 1 else 0])
  }

  /** A cycle of references is read as nothing. */
  lemma {:induction false} CycleIsEmpty(node: Json, doc: Fields, names: seq<string>)
    requires IsCycle(Schemas(doc), names) && IsReference(node, names[0])
    ensures Resolve(node, doc) == []
  {
    CycleFrom(node, doc, names, 0, {});
  }

  lemma {:induction false} CycleFrom(node: Json, doc: Fields, names: seq<string>, i: nat, seen: set<string>)
    requires IsCycle(Schemas(doc), names) && i < |names| && IsReference(node, names[i])
    ensures ResolveFrom(node, doc, seen) == []
    decreases |Keys(Schemas(doc)) - seen|
  {
    var name := names[i];
    ReferenceHasTarget(node, name);
    if name !in seen && name in Keys(Schemas(doc)) {
      ShrinksBy(Keys(Schemas(doc)), seen, name);
      CycleFrom(Get(Schemas(doc), name), doc, names, if i + 1 < |names| then i + 1 else 0, seen + {name});
    }
    hide IsReference, IsCycle, Target, Schemas;
  }

  // --------------------------------------------------------------------------------------------
  // Type signatures
  // --------------------------------------------------------------------------------------------

  /** The order of strings by code points. */
  predicate StringLe(a: string, b: string) {
    a == "" || (b != "" && (a[0] < b[0] || (a[0] == b[0] && StringLe(a[1..], b[1..]))))
  }

  function Joined(parts: seq<string>, sep: string): string {
    if parts == [] then "" else if |parts| == 1 then parts[0] else parts[0] + sep + Joined(parts[1..], sep)
  }

  function Printed(show: Printer, values: seq<Json>): seq<string> {
    Map(show, values)
  }

  function SortedList(show: Printer, values: seq<Json>, sep: string): string {
    Joined(Sort(Printed(show, values), StringLe), sep)
  }

  function TypePart(show: Printer, value: Json): seq<string> {
    match value
    case Arr(items) => [SortedList(show, items, "|")]
    case Null => []
    case _ => [show(value)]
  }

  function FormatPart(show: Printer, value: Json): seq<string> {
    if Truthy(value) then ["format=" + show(value)] else []
  }

  function EnumPart(show: Printer, value: Json): seq<string> {
    if value.Arr? then ["enum=" + SortedList(show, value.items, ",")] else []
  }

  function RefPart(show: Printer, value: Json): seq<string> {
    if Truthy(value) then ["ref=" + show(value)] else []
  }

  /** `type_of`. */
  function TypeOf(show: Printer, node: Fields): string {
    var parts := TypePart(show, Get(node, "type")) + FormatPart(show, Get(node, "format"))
               + EnumPart(show, Get(node, "enum")) + RefPart(show, Get(node, "$ref"));
    if Joined(parts, " ") == "" then "any" else Joined(parts, " ")
  }

  lemma {:induction false} StringLeTotal(a: string, b: string)
    ensures StringLe(a, b) || StringLe(b, a)
    ensures StringLe(a, b) && StringLe(b, a) ==> a == b
  {
    if a != "" && b != "" && a[0] == b[0] {
      StringLeTotal(a[1..], b[1..]);
      assert a == [a[0]] + a[1..] && b == [b[0]] + b[1..];
    }
  }

  lemma {:induction false} StringLeTransitive(a: string, b: string, c: string)
    requires StringLe(a, b) && StringLe(b, c)
    ensures StringLe(a, c)
  {
    if a != "" && a[0] == b[0] == c[0] {
      StringLeTransitive(a[1..], b[1..], c[1..]);
    }
  }

  lemma {:induction false} StringLeOrders()
    ensures TotalOrder(StringLe)
  {
    forall a, b ensures StringLe(a, b) || StringLe(b, a) {
      StringLeTotal(a, b);
    }
    forall a, b, c | StringLe(a, b) && StringLe(b, c) ensures StringLe(a, c) {
      StringLeTransitive(a, b, c);
    }
  }

  /** The order of a list of types or of enumerated values does not matter. */
  lemma {:induction false} OrderInsensitive(show: Printer, values: seq<Json>, order: seq<Json>, sep: string)
    requires multiset(values) == multiset(order)
    ensures SortedList(show, values, sep) == SortedList(show, order, sep)
  {
    StringLeOrders();
    MapPermutes(show, values, order);
    forall a: string, b: string | StringLe(a, b) && StringLe(b, a) ensures a == b {
      StringLeTotal(a, b);
    }
    SortForgetsOrder(Printed(show, values), Printed(show, order), StringLe);
  }

  lemma {:induction false} JoinedInsert(x: string, xs: seq<string>, sep: string)
    ensures |Joined(Insert(x, xs, StringLe), sep)| == |x| + |Joined(xs, sep)| + (if xs == [] then 0 else |sep|)
  {
    hide StringLe;
    if xs != [] {
      if StringLe(x, xs[0]) {
        assert ([x] + xs)[1..] == xs;
      } else {
        JoinedInsert(x, xs[1..], sep);
        var rest := Insert(x, xs[1..], StringLe);
        assert |rest| == |multiset(rest)| && |xs[1..]| == |multiset(xs[1..])|;
        assert ([xs[0]] + rest)[1..] == rest;
      }
    }
  }

  lemma {:induction false} AddedValueGrows(show: Printer, values: seq<Json>, more: seq<Json>, v: Json)
    requires multiset(more) == multiset(values) + multiset{v}
    ensures |SortedList(show, more, ",")| == |SortedList(show, values, ",")| + |show(v)| + if values == [] then 0 else 1
  {
    var extended := [v] + values;
    var old_, new_ := Printed(show, values), Printed(show, extended);
    assert new_ != [] && new_[0] == show(v) && new_[1..] == old_;
    assert |Sort(old_, StringLe)| == |values|;
    hide Printed, StringLe, Joined;
    OrderInsensitive(show, more, extended, ",");
    assert Sort(new_, StringLe) == Insert(show(v), Sort(old_, StringLe), StringLe);
    hide Sort, Insert;
    JoinedInsert(show(v), Sort(old_, StringLe), ",");
  }

  lemma {:induction false} JoinedMiddle(a: seq<string>, x: string, y: string, c: seq<string>, sep: string)
    ensures |Joined(a + [x] + c, sep)| - |x| == |Joined(a + [y] + c, sep)| - |y|
  {
    if a == [] {
      assert (a + [x] + c)[1..] == c && (a + [y] + c)[1..] == c;
    } else {
      assert (a + [x] + c)[1..] == a[1..] + [x] + c && (a + [y] + c)[1..] == a[1..] + [y] + c;
      JoinedMiddle(a[1..], x, y, c, sep);
    }
  }

  /** One more enumerated value changes the signature, whatever else the schema says and wherever the value is
      added, unless it prints as nothing and is the only one. */
  lemma {:induction false} AddedValueIsSeen(show: Printer, old_: Fields, new_: Fields, v: Json)
    requires Get(old_, "type") == Get(new_, "type") && Get(old_, "format") == Get(new_, "format")
    requires Get(old_, "$ref") == Get(new_, "$ref") && Get(old_, "enum").Arr? && Get(new_, "enum").Arr?
    requires multiset(Get(new_, "enum").items) == multiset(Get(old_, "enum").items) + multiset{v}
    ensures TypeOf(show, old_) != TypeOf(show, new_) <==> Get(old_, "enum").items != [] || show(v) != ""
  {
    var values, more := Get(old_, "enum").items, Get(new_, "enum").items;
    AddedValueGrows(show, values, more, v);
    var x, y := SortedList(show, values, ","), SortedList(show, more, ",");
    var a := TypePart(show, Get(old_, "type")) + FormatPart(show, Get(old_, "format"));
    var c := RefPart(show, Get(old_, "$ref"));
    SignatureWithEnum(show, old_, x);
    SignatureWithEnum(show, new_, y);
    hide *;
    JoinedMiddle(a, "enum=" + x, "enum=" + y, c, " ");
  }

  lemma {:induction false} SignatureWithEnum(show: Printer, node: Fields, x: string)
    requires Get(node, "enum").Arr? && x == SortedList(show, Get(node, "enum").items, ",")
    ensures TypeOf(show, node)
         == Joined(TypePart(show, Get(node, "type")) + FormatPart(show, Get(node, "format")) + ["enum=" + x]
                   + RefPart(show, Get(node, "$ref")), " ")
  {
    hide SortedList, TypePart, FormatPart, RefPart, Get;
    var a := TypePart(show, Get(node, "type")) + FormatPart(show, Get(node, "format"));
    var c := RefPart(show, Get(node, "$ref"));
    JoinedHolds(a, "enum=" + x, c, " ");
  }

  lemma {:induction false} JoinedHolds(a: seq<string>, x: string, c: seq<string>, sep: string)
    ensures |Joined(a + [x] + c, sep)| >= |x|
  {
    if a != [] {
      assert (a + [x] + c)[1..] == a[1..] + [x] + c;
      JoinedHolds(a[1..], x, c, sep);
    }
  }

  // --------------------------------------------------------------------------------------------
  // Which lists the signature tells apart
  // --------------------------------------------------------------------------------------------

  function Is(c: char): char -> bool {
    x => x == c
  }

  /** No value prints with the separator in it. */
  predicate Plain(parts: seq<string>, c: char) {
    forall i :: 0 <= i < |parts| ==> c !in parts[i]
  }

  lemma {:induction false} JoinedSplits(parts: seq<string>, c: char)
    requires parts != [] && Plain(parts, c)
    ensures SplitOn(Joined(parts, [c]), Is(c)) == parts
  {
    var first, rest := parts[0], parts[1..];
    assert forall i :: 0 <= i < |first| ==> first[i] in first;
    if |parts| == 1 {
      SplitPiece(first, Is(c));
    } else {
      JoinedSplits(rest, c);
      SplitAfterPiece(first, c, Joined(rest, [c]), Is(c));
    }
    assert parts == [first] + rest;
  }

  lemma {:induction false} SortKeepsPlain(parts: seq<string>, c: char)
    requires Plain(parts, c)
    ensures Plain(Sort(parts, StringLe), c)
  {
    var sorted := Sort(parts, StringLe);
    forall i | 0 <= i < |sorted| ensures c !in sorted[i] {
      assert sorted[i] in multiset(sorted);
      assert sorted[i] in parts;
    }
  }

  lemma {:induction false} SortForgets(a: seq<string>, b: seq<string>)
    requires multiset(a) == multiset(b)
    ensures Sort(a, StringLe) == Sort(b, StringLe)
  {
    StringLeOrders();
    forall x: string, y: string | StringLe(x, y) && StringLe(y, x) ensures x == y {
      StringLeTotal(x, y);
    }
    SortForgetsOrder(a, b, StringLe);
  }

  /** The two lists print alike up to order, or one is empty and the other prints as nothing. */
  predicate SameValues(a: seq<string>, b: seq<string>) {
    multiset(a) == multiset(b) || (a == [] && b == [""]) || (a == [""] && b == [])
  }

  lemma {:induction false} JoinedIsEmpty(parts: seq<string>, c: char)
    requires Plain(parts, c)
    ensures Joined(Sort(parts, StringLe), [c]) == "" <==> parts == [] || parts == [""]
  {
    var sorted := Sort(parts, StringLe);
    SortKeepsPlain(parts, c);
    if parts == [""] {
      SortOne("");
    }
    if parts != [] && Joined(sorted, [c]) == "" {
      JoinedSplits(sorted, c);
      assert sorted == [""];
      assert parts[0] in multiset(sorted);
    }
  }

  /** Joined lists without the separator in a value are equal exactly when their values are. */
  lemma {:induction false} ListsAreCompared(a: seq<string>, b: seq<string>, c: char)
    requires Plain(a, c) && Plain(b, c)
    ensures Joined(Sort(a, StringLe), [c]) == Joined(Sort(b, StringLe), [c]) <==> SameValues(a, b)
  {
    JoinedIsEmpty(a, c);
    JoinedIsEmpty(b, c);
    SortKeepsPlain(a, c);
    SortKeepsPlain(b, c);
    if multiset(a) == multiset(b) {
      SortForgets(a, b);
    }
    if a != [] && b != [] && Joined(Sort(a, StringLe), [c]) == Joined(Sort(b, StringLe), [c]) {
      JoinedSplits(Sort(a, StringLe), c);
      JoinedSplits(Sort(b, StringLe), c);
    }
    assert a == [] ==> multiset(a) == multiset{};
    assert b == [] ==> multiset(b) == multiset{};
    assert |multiset(a)| == |a| && |multiset(b)| == |b|;
  }

  lemma {:induction false} Suffix(head: string, tail: string)
    ensures (head + tail)[|head|..] == tail
  {
  }

  /** A value that holds a comma joins to what its two halves do. */
  lemma {:induction false} CommaIsNotSeen(show: Printer, a: Json, b: Json, both: Json)
    requires show(both) == show(a) + "," + show(b) && StringLe(show(a), show(b))
    ensures SortedList(show, [both], ",") == SortedList(show, [a, b], ",")
  {
    assert Printed(show, [both]) == [show(both)];
    assert Printed(show, [a, b]) == [show(a), show(b)];
    hide Printed, StringLe;
    SortOne(show(both));
    SortTwo(show(a), show(b));
    JoinTwo(show(a), show(b), ",");
  }

  lemma {:induction false} SortOne(x: string)
    ensures Sort([x], StringLe) == [x]
  {
    assert [x][1..] == [];
  }

  lemma {:induction false} SortTwo(x: string, y: string)
    requires StringLe(x, y)
    ensures Sort([x, y], StringLe) == [x, y]
  {
    SortOne(y);
    hide StringLe;
    assert [x, y][1..] == [y];
  }

  lemma {:induction false} JoinTwo(x: string, y: string, sep: string)
    ensures Joined([x, y], sep) == x + sep + y
  {
    assert [x, y][1..] == [y];
  }
}
