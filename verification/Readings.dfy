/** What a type signature says: the type names, the format, the enumerated values and the reference that
    `scripts/check-openapi-compat.py` reads of a schema, and the values that a schema accepts as far as these go. */
module Readings {
  import opened Sorting
  import opened Text
  import opened Signatures

  // --------------------------------------------------------------------------------------------
  // What is read
  // --------------------------------------------------------------------------------------------

  function TypeNames(show: Printer, node: Fields): seq<string> {
    match Get(node, "type")
    case Arr(items) => Printed(show, items)
    case Null => []
    case value => [show(value)]
  }

  function EnumItems(node: Fields): seq<Json> {
    ItemsOf(Get(node, "enum"))
  }

  function Words(s: string): (words: seq<string>)
    ensures |words| >= 1
  {
    SplitOn(s, Is(' '))
  }

  /** A type name that cannot be taken for anything else in a signature. */
  predicate IsName(name: string) {
    name != "" && name != "any" && ' ' !in name && '=' !in name && '|' !in name
  }

  /** Nothing in the schema prints with the separators of a signature in it, and its lists are not empty. An
      enumerated value may hold spaces, but no word in it that looks like a reference. */
  predicate Readable(show: Printer, node: Fields) {
    && (Get(node, "type") != Null ==> TypeNames(show, node) != [])
    && (forall i :: 0 <= i < |TypeNames(show, node)| ==> IsName(TypeNames(show, node)[i]))
    && (Truthy(Get(node, "format")) ==> ' ' !in show(Get(node, "format")))
    && (Truthy(Get(node, "$ref")) ==> ' ' !in show(Get(node, "$ref")))
    && (Get(node, "enum").Arr? ==>
          && EnumItems(node) != [] && Plain(Printed(show, EnumItems(node)), ',')
          && forall i :: 1 <= i < |Words(SortedList(show, EnumItems(node), ","))| ==>
               !StartsWith(Words(SortedList(show, EnumItems(node), ","))[i], "ref="))
  }

  predicate SameText(show: Printer, a: Json, b: Json) {
    Truthy(a) == Truthy(b) && (Truthy(a) ==> show(a) == show(b))
  }

  /** Both schemas say the same, up to the order of lists, in what is read. */
  predicate SameRead(show: Printer, a: Fields, b: Fields) {
    && multiset(TypeNames(show, a)) == multiset(TypeNames(show, b))
    && SameText(show, Get(a, "format"), Get(b, "format"))
    && Get(a, "enum").Arr? == Get(b, "enum").Arr?
    && multiset(Printed(show, EnumItems(a))) == multiset(Printed(show, EnumItems(b)))
    && SameText(show, Get(a, "$ref"), Get(b, "$ref"))
  }

  // --------------------------------------------------------------------------------------------
  // The signature in words
  // --------------------------------------------------------------------------------------------

  function FlatWords(parts: seq<string>): seq<string> {
    if parts == [] then [] else Words(parts[0]) + FlatWords(parts[1..])
  }

  lemma {:induction false} FlatConcat(a: seq<string>, b: seq<string>)
    ensures FlatWords(a + b) == FlatWords(a) + FlatWords(b)
  {
    hide Words;
    if a == [] {
      assert a + b == b;
    } else {
      assert (a + b)[0] == a[0] && (a + b)[1..] == a[1..] + b;
      FlatConcat(a[1..], b);
    }
  }

  lemma {:induction false} WordsOfJoined(parts: seq<string>)
    requires parts != []
    ensures Words(Joined(parts, " ")) == FlatWords(parts)
  {
    hide SplitOn;
    if |parts| == 1 {
      assert parts[1..] == [];
    } else {
      SplitJoined(parts[0], ' ', Joined(parts[1..], " "), Is(' '));
      assert parts[0] + [' '] + Joined(parts[1..], " ") == Joined(parts, " ");
      WordsOfJoined(parts[1..]);
    }
  }

  lemma {:induction false} WordsRejoin(s: string)
    ensures Joined(Words(s), " ") == s
  {
    if s != "" {
      WordsRejoin(s[1..]);
      var rest := SplitOn(s[1..], Is(' '));
      assert s == [s[0]] + s[1..];
      if s[0] == ' ' {
        assert ([""] + rest)[1..] == rest;
      } else {
        assert ([[s[0]] + rest[0]] + rest[1..])[1..] == rest[1..];
      }
    }
  }

  lemma {:induction false} OneWord(s: string)
    requires ' ' !in s
    ensures Words(s) == [s] && FlatWords([s]) == [s]
  {
    assert forall i :: 0 <= i < |s| ==> s[i] in s;
    SplitPiece(s, Is(' '));
    assert [s][1..] == [];
  }

  /** The words of a signature by the part they belong to. */
  datatype Split = Split(types: seq<string>, format: seq<string>, values: seq<string>, ref: seq<string>) {
    function All(): seq<string> {
      types + format + values + ref
    }

    predicate Valid() {
      && |types| <= 1 && (types != [] ==> '=' !in types[0])
      && |format| <= 1 && (format != [] ==> StartsWith(format[0], "format="))
      && (values != [] ==> StartsWith(values[0], "enum="))
      && (forall i :: 1 <= i < |values| ==> !StartsWith(values[i], "ref="))
      && |ref| <= 1 && (ref != [] ==> StartsWith(ref[0], "ref="))
    }
  }

  lemma {:induction false} Heads(s: string)
    ensures StartsWith(s, "format=") ==> s[0] == 'f' && '=' in s
    ensures StartsWith(s, "enum=") ==> s[0] == 'e' && '=' in s
    ensures StartsWith(s, "ref=") ==> s[0] == 'r' && '=' in s
  {
    if StartsWith(s, "format=") {
      assert s[0] == s[..7][0] && s[6] == s[..7][6];
    }
    if StartsWith(s, "enum=") {
      assert s[0] == s[..5][0] && s[4] == s[..5][4];
    }
    if StartsWith(s, "ref=") {
      assert s[0] == s[..4][0] && s[3] == s[..4][3];
    }
  }

  lemma {:induction false} SplitOnce(a: Split, b: Split)
    requires a.Valid() && b.Valid() && a.All() == b.All()
    ensures a == b
  {
    SameTypes(a, b);
    TailOfSplit(a);
    TailOfSplit(b);
    hide *;
    SameFormat(a, b, a.format + a.values + a.ref);
    EndOfSplit(a);
    EndOfSplit(b);
    SameEnds(a, b);
  }

  lemma {:induction false} TailOfSplit(a: Split)
    ensures |a.types| <= |a.All()| && a.All()[|a.types|..] == a.format + a.values + a.ref
  {
    assert a.All() == a.types + (a.format + a.values + a.ref);
  }

  lemma {:induction false} EndOfSplit(a: Split)
    ensures (a.format + a.values + a.ref)[|a.format|..] == a.values + a.ref
  {
    assert a.format + a.values + a.ref == a.format + (a.values + a.ref);
  }

  lemma {:induction false} SameTypes(a: Split, b: Split)
    requires a.Valid() && b.Valid() && a.All() == b.All()
    ensures a.types == b.types
  {
    FirstHasSign(a);
    FirstHasSign(b);
    assert a.types != [] ==> a.All()[0] == a.types[0];
    assert b.types != [] ==> b.All()[0] == b.types[0];
  }

  lemma {:induction false} FirstHasSign(a: Split)
    requires a.Valid()
    ensures a.types == [] && a.All() != [] ==> '=' in a.All()[0]
  {
    if a.types == [] && a.All() != [] {
      Heads(a.All()[0]);
      assert a.All() == a.format + a.values + a.ref;
      hide StartsWith;
    }
  }

  lemma {:induction false} SameFormat(a: Split, b: Split, x: seq<string>)
    requires a.Valid() && b.Valid() && x == a.format + a.values + a.ref == b.format + b.values + b.ref
    ensures a.format == b.format
  {
    FirstIsNoFormat(a);
    FirstIsNoFormat(b);
    if a.format != [] {
      Heads(a.format[0]);
      assert x[0] == a.format[0];
    }
    if b.format != [] {
      Heads(b.format[0]);
      assert x[0] == b.format[0];
    }
    hide StartsWith;
  }

  lemma {:induction false} FirstIsNoFormat(a: Split)
    requires a.Valid()
    ensures var x := a.format + a.values + a.ref;
            a.format == [] && x != [] ==> x[0] != "" && x[0][0] != 'f'
  {
    if a.format == [] && a.values != [] {
      Heads(a.values[0]);
    }
    if a.format == [] && a.ref != [] {
      Heads(a.ref[0]);
    }
    hide StartsWith;
  }

  lemma {:induction false} SameEnds(a: Split, b: Split)
    requires a.Valid() && b.Valid() && a.values + a.ref == b.values + b.ref
    ensures a.values == b.values && a.ref == b.ref
  {
    var x := a.values + a.ref;
    LastIsNoRef(a);
    LastIsNoRef(b);
    hide StartsWith;
    assert a.ref != [] ==> x[|x| - 1] == a.ref[0];
    assert b.ref != [] ==> x[|x| - 1] == b.ref[0];
    assert |a.ref| == |b.ref|;
    assert a.values == x[..|x| - |a.ref|] && b.values == x[..|x| - |b.ref|];
  }

  lemma {:induction false} LastIsNoRef(a: Split)
    requires a.Valid()
    ensures var x := a.values + a.ref;
            a.ref == [] && x != [] ==> !StartsWith(x[|x| - 1], "ref=")
  {
    if a.values != [] {
      Heads(a.values[0]);
    }
  }

  // --------------------------------------------------------------------------------------------
  // The signature is what is read
  // --------------------------------------------------------------------------------------------

  function Parts(show: Printer, node: Fields): seq<string> {
    TypePart(show, Get(node, "type")) + FormatPart(show, Get(node, "format"))
    + EnumPart(show, Get(node, "enum")) + RefPart(show, Get(node, "$ref"))
  }

  function SplitOf(show: Printer, node: Fields): Split {
    Split(TypePart(show, Get(node, "type")), FormatPart(show, Get(node, "format")),
          FlatWords(EnumPart(show, Get(node, "enum"))), RefPart(show, Get(node, "$ref")))
  }

  lemma {:induction false} TypePartIs(show: Printer, node: Fields)
    ensures TypePart(show, Get(node, "type")) ==
            if Get(node, "type") == Null then [] else [Joined(Sort(TypeNames(show, node), StringLe), "|")]
  {
    if !Get(node, "type").Arr? && Get(node, "type") != Null {
      SortOne(show(Get(node, "type")));
    }
  }

  predicate IsClean(s: string) {
    ' ' !in s && '=' !in s
  }

  lemma {:induction false} CleanConcat(a: string, b: string)
    requires IsClean(a) && IsClean(b)
    ensures IsClean(a + b)
  {
  }

  lemma {:induction false} JoinedNames(names: seq<string>)
    requires names != [] && forall i :: 0 <= i < |names| ==> IsName(names[i])
    ensures IsClean(Joined(names, "|")) && Joined(names, "|") != "" && Joined(names, "|") != "any"
  {
    assert IsName(names[0]) && IsClean(names[0]) && IsClean("|");
    if |names| > 1 {
      var rest := Joined(names[1..], "|");
      JoinedNames(names[1..]);
      CleanConcat(names[0], "|");
      CleanConcat(names[0] + "|", rest);
      assert (names[0] + "|" + rest)[|names[0]|] == '|';
    }
  }

  lemma {:induction false} SortedNames(names: seq<string>)
    requires names != [] && forall i :: 0 <= i < |names| ==> IsName(names[i])
    ensures var s := Joined(Sort(names, StringLe), "|"); IsClean(s) && s != "" && s != "any"
  {
    var sorted := Sort(names, StringLe);
    forall i | 0 <= i < |sorted| ensures IsName(sorted[i]) {
      assert sorted[i] in multiset(sorted);
      assert sorted[i] in names;
    }
    JoinedNames(sorted);
  }

  lemma {:induction false} EnumWords(x: string)
    ensures FlatWords(["enum=" + x]) == ["enum=" + Words(x)[0]] + Words(x)[1..]
  {
    hide SplitOn;
    assert ["enum=" + x][1..] == [];
    WordsAfterHead("enum=", x);
  }

  lemma {:induction false} WordsAfterHead(head: string, x: string)
    requires ' ' !in head
    ensures Words(head + x) == [head + Words(x)[0]] + Words(x)[1..]
  {
    var rest := Words(x);
    if head == "" {
      assert head + x == x && "" + rest[0] == rest[0];
      assert rest == [rest[0]] + rest[1..];
    } else {
      var s := head + x;
      assert s[1..] == head[1..] + x && s[0] == head[0];
      assert head[0] in head;
      WordsAfterHead(head[1..], x);
      var more := SplitOn(s[1..], Is(' '));
      assert more[0] == head[1..] + rest[0] && more[1..] == rest[1..];
      assert [s[0]] + (head[1..] + rest[0]) == head + rest[0];
    }
  }

  lemma {:induction false} SplitIsValid(show: Printer, node: Fields)
    requires Readable(show, node)
    ensures SplitOf(show, node).Valid()
    ensures FlatWords(Parts(show, node)) == SplitOf(show, node).All()
    ensures Parts(show, node) == [] <==> SplitOf(show, node).All() == []
  {
    var t, f := TypePart(show, Get(node, "type")), FormatPart(show, Get(node, "format"));
    var e, r := EnumPart(show, Get(node, "enum")), RefPart(show, Get(node, "$ref"));
    assert SplitOf(show, node) == Split(t, f, FlatWords(e), r) && Parts(show, node) == t + f + e + r;
    assert t != [] && IsClean(t[0]) ==> '=' !in t[0];
    TypeWords(show, node);
    TextWords(show, node);
    ValueWords(show, node);
    hide *;
    FlatFour(t, f, e, r);
    ValidSplit(t, f, FlatWords(e), r);
    NoneOfFour(t, f, e, r);
    NoneOfFour(t, f, FlatWords(e), r);
  }

  lemma {:induction false} ValidSplit(t: seq<string>, f: seq<string>, w: seq<string>, r: seq<string>)
    requires |t| <= 1 && (t != [] ==> '=' !in t[0])
    requires |f| <= 1 && (f != [] ==> StartsWith(f[0], "format="))
    requires w != [] ==> StartsWith(w[0], "enum=")
    requires forall i :: 1 <= i < |w| ==> !StartsWith(w[i], "ref=")
    requires |r| <= 1 && (r != [] ==> StartsWith(r[0], "ref="))
    ensures Split(t, f, w, r).Valid() && Split(t, f, w, r).All() == t + f + w + r
  {
  }

  lemma {:induction false} NoneOfFour(t: seq<string>, f: seq<string>, e: seq<string>, r: seq<string>)
    ensures t + f + e + r == [] <==> t == [] && f == [] && e == [] && r == []
  {
    assert |t + f + e + r| == |t| + |f| + |e| + |r|;
  }

  lemma {:induction false} FlatFour(t: seq<string>, f: seq<string>, e: seq<string>, r: seq<string>)
    ensures FlatWords(t + f + e + r) == FlatWords(t) + FlatWords(f) + FlatWords(e) + FlatWords(r)
  {
    hide FlatWords;
    FlatConcat(t + f + e, r);
    FlatConcat(t + f, e);
    FlatConcat(t, f);
  }

  lemma {:induction false} TypeWords(show: Printer, node: Fields)
    requires Readable(show, node)
    ensures var t := TypePart(show, Get(node, "type"));
            && |t| <= 1 && FlatWords(t) == t
            && (t != [] ==> IsClean(t[0]) && t[0] != "" && t[0] != "any")
  {
    TypePartIs(show, node);
    if Get(node, "type") != Null {
      SortedNames(TypeNames(show, node));
      OneWord(Joined(Sort(TypeNames(show, node), StringLe), "|"));
    }
  }

  lemma {:induction false} TextWords(show: Printer, node: Fields)
    requires Readable(show, node)
    ensures var f, r := FormatPart(show, Get(node, "format")), RefPart(show, Get(node, "$ref"));
            && |f| <= 1 && FlatWords(f) == f && (f != [] ==> StartsWith(f[0], "format="))
            && |r| <= 1 && FlatWords(r) == r && (r != [] ==> StartsWith(r[0], "ref="))
  {
    if Truthy(Get(node, "format")) {
      OneWord("format=" + show(Get(node, "format")));
    }
    if Truthy(Get(node, "$ref")) {
      OneWord("ref=" + show(Get(node, "$ref")));
    }
  }

  lemma {:induction false} ValueWords(show: Printer, node: Fields)
    requires Readable(show, node)
    ensures var e := EnumPart(show, Get(node, "enum"));
            var words := FlatWords(e);
            && |e| <= 1 && (e == [] <==> words == [])
            && (words != [] ==> StartsWith(words[0], "enum=") && StartsWith(e[0], "enum="))
            && forall i :: 1 <= i < |words| ==> !StartsWith(words[i], "ref=")
  {
    EnumPartIs(show, node);
    if Get(node, "enum").Arr? {
      var x := SortedList(show, EnumItems(node), ",");
      hide *;
      EnumWords(x);
      WordsBehind("enum=", Words(x));
      StartsPrefix("enum=", x);
    }
  }

  lemma {:induction false} WordsBehind(head: string, w: seq<string>)
    requires w != []
    ensures var words := [head + w[0]] + w[1..];
            |words| == |w| && StartsWith(words[0], head) && forall i :: 1 <= i < |words| ==> words[i] == w[i]
  {
    StartsPrefix(head, w[0]);
  }

  lemma {:induction false} EnumPartIs(show: Printer, node: Fields)
    requires Readable(show, node)
    ensures var e := EnumPart(show, Get(node, "enum"));
            if Get(node, "enum").Arr? then e == ["enum=" + SortedList(show, EnumItems(node), ",")] else e == []
    ensures Get(node, "enum").Arr? ==>
              forall i :: 1 <= i < |Words(SortedList(show, EnumItems(node), ","))| ==>
                !StartsWith(Words(SortedList(show, EnumItems(node), ","))[i], "ref=")
    ensures FlatWords([]) == []
  {
    hide SortedList, Words, IsName, Printed, StartsWith;
  }

  lemma {:induction false} NeverAny(show: Printer, node: Fields)
    requires Readable(show, node)
    ensures Joined(Parts(show, node), " ") != "any"
    ensures Joined(Parts(show, node), " ") == "" <==> Parts(show, node) == []
  {
    var t, f := TypePart(show, Get(node, "type")), FormatPart(show, Get(node, "format"));
    var e, r := EnumPart(show, Get(node, "enum")), RefPart(show, Get(node, "$ref"));
    TypeWords(show, node);
    TextWords(show, node);
    ValueWords(show, node);
    assert Parts(show, node) == t + f + e + r;
    NotAny(f);
    NotAny(e);
    NotAny(r);
    hide *;
    FourAreNotAny(t, f, e, r);
    NoneIsAny(t + f + e + r);
  }

  ghost predicate NoAny(parts: seq<string>) {
    forall p :: p in parts ==> p != "" && p != "any"
  }

  lemma {:induction false} NotAny(parts: seq<string>)
    requires |parts| <= 1
    requires parts != [] ==>
               StartsWith(parts[0], "format=") || StartsWith(parts[0], "enum=") || StartsWith(parts[0], "ref=")
    ensures NoAny(parts)
  {
    if parts != [] {
      Heads(parts[0]);
    }
    hide StartsWith;
  }

  lemma {:induction false} FourAreNotAny(t: seq<string>, f: seq<string>, e: seq<string>, r: seq<string>)
    requires NoAny(f) && NoAny(e) && NoAny(r) && |t| <= 1 && (t != [] ==> t[0] != "" && t[0] != "any")
    ensures NoAny(t + f + e + r)
  {
    assert forall p :: p in t + f + e + r ==> p in t || p in f || p in e || p in r;
  }

  lemma {:induction false} NoneIsAny(parts: seq<string>)
    requires NoAny(parts)
    ensures Joined(parts, " ") != "any" && (Joined(parts, " ") == "" <==> parts == [])
  {
    if parts != [] {
      assert forall i :: 0 <= i < |parts| ==> parts[i] in parts;
      JoinedStarts(parts);
    }
  }

  lemma {:induction false} JoinedStarts(parts: seq<string>)
    requires parts != [] && forall i :: 0 <= i < |parts| ==> parts[i] != "" && parts[i] != "any"
    ensures Joined(parts, " ") != "" && Joined(parts, " ") != "any"
  {
    if |parts| > 1 {
      var s := Joined(parts, " ");
      assert s[|parts[0]|] == ' ';
    }
  }

  /** For readable schemas the signatures are equal exactly when the same is read, up to order. */
  lemma {:induction false} SignatureIsRead(show: Printer, a: Fields, b: Fields)
    requires Readable(show, a) && Readable(show, b)
    ensures TypeOf(show, a) == TypeOf(show, b) <==> SameRead(show, a, b)
  {
    SplitIsValid(show, a);
    SplitIsValid(show, b);
    NeverAny(show, a);
    NeverAny(show, b);
    var p, q := Parts(show, a), Parts(show, b);
    assert TypeOf(show, a) == TypeOf(show, b) <==> Joined(p, " ") == Joined(q, " ");
    SameSplit(show, a, b);
    hide Readable, TypeOf, SameRead, SplitOf, Parts;
    if Joined(p, " ") == Joined(q, " ") {
      if p != [] {
        WordsOfJoined(p);
        WordsOfJoined(q);
      }
      SplitOnce(SplitOf(show, a), SplitOf(show, b));
    }
  }

  /** The words are the same exactly when the same is read; then so are the parts. */
  lemma {:induction false} SameSplit(show: Printer, a: Fields, b: Fields)
    requires Readable(show, a) && Readable(show, b)
    ensures SplitOf(show, a) == SplitOf(show, b) <==> SameRead(show, a, b)
    ensures SameRead(show, a, b) ==> Parts(show, a) == Parts(show, b)
  {
    SameTypePart(show, a, b);
    SameEnumPart(show, a, b);
    SameTextParts(show, a, b);
    hide Readable, TypePart, FormatPart, EnumPart, RefPart, FlatWords, TypeNames, EnumItems, SameText;
  }

  lemma {:induction false} SameTextParts(show: Printer, a: Fields, b: Fields)
    ensures FormatPart(show, Get(a, "format")) == FormatPart(show, Get(b, "format"))
       <==> SameText(show, Get(a, "format"), Get(b, "format"))
    ensures RefPart(show, Get(a, "$ref")) == RefPart(show, Get(b, "$ref"))
       <==> SameText(show, Get(a, "$ref"), Get(b, "$ref"))
  {
    SameHead("format=", show(Get(a, "format")), show(Get(b, "format")));
    SameHead("ref=", show(Get(a, "$ref")), show(Get(b, "$ref")));
    hide Get, Truthy;
  }

  lemma {:induction false} SameHead(head: string, x: string, y: string)
    ensures head + x == head + y <==> x == y
    ensures [head + x] == [head + y] <==> x == y
  {
    Suffix(head, x);
    Suffix(head, y);
    assert [head + x][0] == head + x && [head + y][0] == head + y;
  }

  lemma {:induction false} SameTypePart(show: Printer, a: Fields, b: Fields)
    requires Readable(show, a) && Readable(show, b)
    ensures TypePart(show, Get(a, "type")) == TypePart(show, Get(b, "type"))
       <==> multiset(TypeNames(show, a)) == multiset(TypeNames(show, b))
  {
    TypePartIs(show, a);
    TypePartIs(show, b);
    var x, y := TypeNames(show, a), TypeNames(show, b);
    assert Get(a, "type") == Null <==> x == [];
    assert Get(b, "type") == Null <==> y == [];
    assert Plain(x, '|') && Plain(y, '|');
    assert "" !in x && "" !in y;
    hide Readable, TypePart, TypeNames;
    ListsAreCompared(x, y, '|');
    SizesAgree(x, y);
    var s, t := Joined(Sort(x, StringLe), "|"), Joined(Sort(y, StringLe), "|");
    assert [s] == [t] <==> s == t;
    assert x != [""] && y != [""];
  }

  lemma {:induction false} SizesAgree(x: seq<string>, y: seq<string>)
    ensures multiset(x) == multiset(y) ==> (x == [] <==> y == [])
  {
    assert |multiset(x)| == |x| && |multiset(y)| == |y|;
  }

  lemma {:induction false} SameEnumPart(show: Printer, a: Fields, b: Fields)
    requires Readable(show, a) && Readable(show, b)
    ensures FlatWords(EnumPart(show, Get(a, "enum"))) == FlatWords(EnumPart(show, Get(b, "enum")))
       <==> && Get(a, "enum").Arr? == Get(b, "enum").Arr?
            && multiset(Printed(show, EnumItems(a))) == multiset(Printed(show, EnumItems(b)))
    ensures EnumPart(show, Get(a, "enum")) == EnumPart(show, Get(b, "enum"))
       <==> FlatWords(EnumPart(show, Get(a, "enum"))) == FlatWords(EnumPart(show, Get(b, "enum")))
  {
    var x, y := Printed(show, EnumItems(a)), Printed(show, EnumItems(b));
    ValueWords(show, a);
    ValueWords(show, b);
    assert !Get(a, "enum").Arr? ==> x == [];
    assert !Get(b, "enum").Arr? ==> y == [];
    if Get(a, "enum").Arr? && Get(b, "enum").Arr? {
      ListsAreCompared(x, y, ',');
      var s, t := SortedList(show, EnumItems(a), ","), SortedList(show, EnumItems(b), ",");
      assert s == Joined(Sort(x, StringLe), [',']) && t == Joined(Sort(y, StringLe), [',']);
      assert x != [] && y != [];
      NotBothWays(x, y);
      hide Readable, SortedList, Words, FlatWords;
      SameHead("enum=", s, t);
      OnePart("enum=" + s);
      OnePart("enum=" + t);
      WordsRejoin("enum=" + s);
      WordsRejoin("enum=" + t);
    }
  }

  lemma {:induction false} OnePart(s: string)
    ensures FlatWords([s]) == Words(s)
  {
    assert [s][1..] == [];
  }

  lemma {:induction false} NotBothWays(x: seq<string>, y: seq<string>)
    requires x != [] && y != []
    ensures SameValues(x, y) <==> multiset(x) == multiset(y)
  {
  }
}
