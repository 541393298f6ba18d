/** Digit literals of `llm/citations.rs`: the character loop that collects numeric runs, and the
    normaliser that turns a run into a comparable key. */
module Numerals {
  import opened Decimal
  import opened Text

  predicate IsSign(c: char) {
    c == '-' || c == '+'
  }

  predicate IsPoint(c: char) {
    c == '.' || c == ','
  }

  predicate IsSeparator(c: char) {
    IsPoint(c) || c == '_' || c == '\'' || c == '\U{2019}' || c == ' ' || c == '\U{00A0}' || c == '\U{202F}'
  }

  /** A numeral as it is written: an optional sign, groups of digits, one separator between groups. */
  datatype Numeral = Numeral(sign: string, groups: seq<string>, separators: string) {
    ghost predicate Valid() {
      && (sign == "" || sign == "-" || sign == "+")
      && |groups| == |separators| + 1
      && (forall i :: 0 <= i < |groups| ==> groups[i] != [] && AllDigits(groups[i]))
      && (forall i :: 0 <= i < |separators| ==> IsSeparator(separators[i]))
    }

    ghost function Print(): string
      requires Valid()
    {
      sign + Body(groups, separators)
    }
  }

  ghost function Body(groups: seq<string>, separators: string): string
    requires |groups| == |separators| + 1
  {
    if separators == "" then groups[0] else groups[0] + [separators[0]] + Body(groups[1..], separators[1..])
  }

  /** The shape every collected run has. */
  ghost predicate IsRun(run: string) {
    exists n: Numeral :: n.Valid() && n.Print() == run
  }

  // --------------------------------------------------------------------------------------------
  // Normalising one run
  // --------------------------------------------------------------------------------------------

  function Groups(run: string): seq<string> {
    NonEmpty(SplitOn(Unsigned(run), IsSeparator))
  }

  function Separators(run: string): string {
    Keep(Unsigned(run), IsSeparator)
  }

  function Unsigned(run: string): string {
    if run != [] && IsSign(run[0]) then run[1..] else run
  }

  predicate AllThree(groups: seq<string>) {
    forall i :: 0 <= i < |groups| ==> |groups[i]| == 3
  }

  /** What a sequence of groups is read as. */
  datatype Reading = Whole(digits: string) | Fraction(integer: string, fraction: string) | Unreadable

  function ReadGroups(groups: seq<string>, separators: string): Reading
    requires groups != []
  {
    if |groups| == 1 then Whole(groups[0]) else
    var n := |groups|;
    var prefix := groups[..n - 1];
    var m := |separators|;
    var decimalCandidate := m > 0 && IsPoint(separators[m - 1])
                            && (|groups[n - 1]| != 3 || |groups[0]| > 3
                                || exists i :: 0 <= i < m - 1 && separators[i] != separators[m - 1]);
    var groupedPrefix := |prefix| == 1 || (|prefix[0]| <= 3 && AllThree(prefix[1..]));
    if decimalCandidate && groupedPrefix then Fraction(Concat(prefix), groups[n - 1]) else
    var unambiguous := n > 2 || forall i :: 0 <= i < m ==> !IsPoint(separators[i]);
    if unambiguous && |groups[0]| <= 3 && AllThree(groups[1..]) && m == n - 1 then Whole(Concat(groups)) else
    if n == 2 && m == 1 && IsPoint(separators[0]) then Fraction(groups[0], groups[1]) else
    Unreadable
  }

  function CanonicalInteger(digits: string, negative: bool): string
    requires AllDigits(digits)
  {
    var trimmed := TrimStartZeros(digits);
    var digits := if trimmed == [] then "0" else trimmed;
    if negative && digits != "0" then "-" + digits else digits
  }

  function CanonicalDecimal(integer: string, fraction: string, negative: bool): string
    requires AllDigits(integer) && AllDigits(fraction)
  {
    var trimmed := TrimStartZeros(integer);
    var fraction := TrimEndZeros(fraction);
    var integer := if trimmed == [] then "0" else trimmed;
    if fraction == [] then CanonicalInteger(integer, negative)
    else (if negative then "-" else "") + integer + "." + fraction
  }

  /** `normalize_numeric_run`. Every run the loop hands over has a digit group, so the source's empty
      answer for "no group" never happens. */
  function NormalizeRun(run: string): string
    requires IsRun(run)
  {
    RunHasDigits(run);
    var negative := run != [] && run[0] == '-';
    match ReadGroups(Groups(run), Separators(run))
    case Whole(digits) => CanonicalInteger(digits, negative)
    case Fraction(integer, fraction) => CanonicalDecimal(integer, fraction, negative)
    case Unreadable => "literal:" + run
  }

  lemma {:induction false} GroupsOfBody(groups: seq<string>, separators: string)
    requires Numeral("", groups, separators).Valid()
    ensures SplitOn(Body(groups, separators), IsSeparator) == groups
    ensures Keep(Body(groups, separators), IsSeparator) == separators
  {
    var g := groups[0];
    KeepNone(g, IsSeparator);
    if separators == "" {
      SplitPiece(g, IsSeparator);
      assert groups == [g];
    } else {
      var rest := Body(groups[1..], separators[1..]);
      GroupsOfBody(groups[1..], separators[1..]);
      SplitAfterPiece(g, separators[0], rest, IsSeparator);
      KeepConcat(g + [separators[0]], rest, IsSeparator);
      KeepConcat(g, [separators[0]], IsSeparator);
      assert groups == [g] + groups[1..];
      assert separators == [separators[0]] + separators[1..];
    }
  }

  /** Splitting a printed numeral gives back the groups and separators it was printed from. */
  lemma {:induction false} GroupsOfPrint(n: Numeral)
    requires n.Valid()
    ensures Groups(n.Print()) == n.groups && Separators(n.Print()) == n.separators
    ensures (n.Print() != [] && n.Print()[0] == '-') <==> n.sign == "-"
  {
    var body := Body(n.groups, n.separators);
    assert body[0] == n.groups[0][0];
    assert Unsigned(n.Print()) == body;
    assert Numeral("", n.groups, n.separators).Valid();
    GroupsOfBody(n.groups, n.separators);
    NonEmptyAll(n.groups);
  }

  lemma {:induction false} ConcatDigits(groups: seq<string>)
    requires forall i :: 0 <= i < |groups| ==> AllDigits(groups[i])
    ensures AllDigits(Concat(groups))
  {
    if groups != [] {
      ConcatDigits(groups[1..]);
    }
  }

  lemma {:induction false} RunHasDigits(run: string)
    requires IsRun(run)
    ensures Groups(run) != []
    ensures match ReadGroups(Groups(run), Separators(run))
            case Whole(digits) => AllDigits(digits)
            case Fraction(integer, fraction) => AllDigits(integer) && AllDigits(fraction)
            case Unreadable => true
  {
    var n: Numeral :| n.Valid() && n.Print() == run;
    GroupsOfPrint(n);
    ConcatDigits(n.groups);
    ConcatDigits(n.groups[..|n.groups| - 1]);
  }

  /** No reading drops, adds or reorders a digit. */
  lemma {:induction false} ReadingKeepsDigits(groups: seq<string>, separators: string)
    requires groups != []
    ensures match ReadGroups(groups, separators)
            case Whole(digits) => digits == Concat(groups)
            case Fraction(integer, fraction) => integer + fraction == Concat(groups)
            case Unreadable => true
  {
    var n := |groups|;
    assert groups == groups[..n - 1] + [groups[n - 1]];
    ConcatConcat(groups[..n - 1], [groups[n - 1]]);
  }

  // --------------------------------------------------------------------------------------------
  // Keys are canonical
  // --------------------------------------------------------------------------------------------

  /** A signed decimal fraction: `integer.fraction`, both strings of digits. */
  datatype Amount = Amount(negative: bool, integer: string, fraction: string) {
    ghost predicate Valid() {
      AllDigits(integer) && AllDigits(fraction)
    }

    ghost function Magnitude(): nat
      requires Valid()
    {
      Value(integer + fraction)
    }

    ghost function Numerator(): int
      requires Valid()
    {
      var m: int := Magnitude();
      if negative then -m else m
    }

    ghost function Denominator(): nat {
      Pow10(|fraction|)
    }

    /** No leading zero, no trailing zero, no minus zero. */
    ghost predicate Canonical() {
      && Valid() && NoLeadingZero(integer)
      && (fraction != [] ==> fraction[|fraction| - 1] != '0')
      && !(negative && integer == "0" && fraction == "")
    }

    function Key(): string {
      (if negative then "-" else "") + integer + (if fraction == "" then "" else "." + fraction)
    }
  }

  /** The two amounts are the same rational number. */
  ghost predicate SameNumber(a: Amount, b: Amount)
    requires a.Valid() && b.Valid()
  {
    a.Numerator() * b.Denominator() == b.Numerator() * a.Denominator()
  }

  /** The amount a run stands for, when it is read as a number at all. */
  ghost function AmountOf(negative: bool, reading: Reading): Amount
    requires !reading.Unreadable?
  {
    match reading
    case Whole(digits) => Amount(negative, digits, "")
    case Fraction(integer, fraction) => Amount(negative, integer, fraction)
  }

  ghost function Canonicalized(a: Amount): (c: Amount)
    requires a.Valid()
    ensures c.Canonical()
    ensures c.Key() == CanonicalDecimal(a.integer, a.fraction, a.negative)
  {
    var integer := TrimStartZeros(a.integer);
    var fraction := TrimEndZeros(a.fraction);
    var integer := if integer == "" then "0" else integer;
    Amount(a.negative && !(integer == "0" && fraction == ""), integer, fraction)
  }

  lemma {:induction false} IntegerKey(digits: string, negative: bool)
    requires AllDigits(digits)
    ensures CanonicalInteger(digits, negative) == CanonicalDecimal(digits, "", negative)
  {
    var t := TrimStartZeros(digits);
    var d := if t == [] then "0" else t;
    assert TrimStartZeros(d) == if d == "0" then "" else d;
  }

  lemma {:induction false} CanonicalizedMagnitude(a: Amount) returns (k: nat)
    requires a.Valid()
    ensures |a.fraction| == |Canonicalized(a).fraction| + k
    ensures a.Magnitude() == Canonicalized(a).Magnitude() * Pow10(k)
  {
    var c := Canonicalized(a);
    k := |a.fraction| - |c.fraction|;
    assert a.integer + a.fraction == a.integer + c.fraction + Zeros(k);
    ValueConcat(a.integer + c.fraction, Zeros(k));
    ValueZeros(k);
    ValueConcat(a.integer, c.fraction);
    ValueConcat(c.integer, c.fraction);
    ValueOfDigit('0');
  }

  /** Canonicalising keeps the number. */
  lemma {:induction false} CanonicalizedSame(a: Amount)
    requires a.Valid()
    ensures SameNumber(a, Canonicalized(a))
  {
    var c := Canonicalized(a);
    var k := CanonicalizedMagnitude(a);
    Pow10Add(|c.fraction|, k);
    if c.negative != a.negative {
      assert c.integer == "0" && c.fraction == "";
      ValueOfDigit('0');
      assert c.integer + c.fraction == "0";
    }
    Regroup(c.Magnitude(), Pow10(k), Pow10(|c.fraction|));
  }

  lemma {:induction false} Regroup(x: int, y: int, z: int)
    ensures (x * y) * z == x * (z * y)
    ensures (-(x * y)) * z == (-x) * (z * y)
  {
    assert (x * y) * z == x * (y * z);
  }

  /** One number has one canonical form. */
  lemma {:induction false} CanonicalOnlyOnce(a: Amount, b: Amount)
    requires a.Canonical() && b.Canonical() && SameNumber(a, b)
    ensures a == b
  {
    if a.negative != b.negative {
      SignsAgree(a, b);
    }
    if |a.fraction| <= |b.fraction| {
      MagnitudeOnlyOnce(a, b);
    } else {
      MagnitudeOnlyOnce(b, a);
    }
  }

  lemma {:induction false} SignsAgree(a: Amount, b: Amount)
    requires a.Canonical() && b.Canonical() && SameNumber(a, b)
    ensures a.negative == b.negative
  {
    if a.negative != b.negative {
      var (n, p) := if a.negative then (a, b) else (b, a);
      assert n.Numerator() * p.Denominator() <= 0 <= p.Numerator() * n.Denominator();
      assert n.Magnitude() == 0;
      ZeroIsCanonical(n);
    }
  }

  lemma {:induction false} ZeroIsCanonical(a: Amount)
    requires a.Canonical() && a.Magnitude() == 0
    ensures !a.negative && a.integer == "0" && a.fraction == ""
  {
    if a.fraction != "" {
      LastDigitCounts(a.fraction);
    }
    ValueConcat(a.integer, a.fraction);
    assert Value(a.integer) == 0 by {
      if Value(a.integer) > 0 {
        AtLeastOnce(Value(a.integer), Pow10(|a.fraction|));
      }
    }
    ValueOfDigit('0');
    CanonicalUnique(a.integer, "0");
  }

  lemma {:induction false} LastDigitCounts(s: string)
    requires AllDigits(s) && s != [] && s[|s| - 1] != '0'
    ensures Value(s) % 10 != 0
  {
    assert Value(s) == Value(s[..|s| - 1]) * 10 + DigitValue(s[|s| - 1]);
  }

  lemma {:induction false} MagnitudeOnlyOnce(a: Amount, b: Amount)
    requires a.Canonical() && b.Canonical() && a.negative == b.negative && |a.fraction| <= |b.fraction|
    requires SameNumber(a, b)
    ensures a == b
  {
    var k := |b.fraction| - |a.fraction|;
    MagnitudesScale(a, b, k);
    hide Value, SameNumber;
    if k == 0 {
      SameDigits(a.integer, a.fraction, b.integer, b.fraction);
    } else {
      LastDigitCounts(b.integer + b.fraction);
      MultipleOfTen(a.Magnitude(), Pow10(k - 1));
    }
  }

  lemma {:induction false} SameDigits(a: string, f: string, b: string, g: string)
    requires AllDigits(a) && AllDigits(b) && AllDigits(f) && AllDigits(g) && |f| == |g|
    requires NoLeadingZero(a) && NoLeadingZero(b) && a != "" && b != ""
    requires Value(a + f) == Value(b + g)
    ensures a == b && f == g
  {
    hide Value;
    ValueConcat(a, f);
    ValueConcat(b, g);
    ValueBound(f);
    ValueBound(g);
    SameQuotient(Value(a), Value(f), Value(b), Value(g), Pow10(|f|));
    CanonicalUnique(a, b);
    ValueInjective(f, g);
  }

  lemma {:induction false} MagnitudesScale(a: Amount, b: Amount, k: nat)
    requires a.Canonical() && b.Canonical() && a.negative == b.negative && |b.fraction| == |a.fraction| + k
    requires SameNumber(a, b)
    ensures a.Magnitude() * Pow10(k) == b.Magnitude()
  {
    Pow10Add(|a.fraction|, k);
    hide Value, Pow10;
    ScaledBy(a.Magnitude(), b.Magnitude(), a.negative, a.Denominator(), Pow10(k));
  }

  lemma {:induction false} ScaledBy(m: int, n: int, negative: bool, d: nat, scale: nat)
    requires d > 0 && (if negative then -m else m) * (d * scale) == (if negative then -n else n) * d
    ensures m * scale == n
  {
    Regroup(m, scale, d);
    assert negative ==> (-m) * (d * scale) == -((m * scale) * d) && (-n) * d == -(n * d);
    CancelFactor(m * scale, n, d);
  }

  lemma {:induction false} MultipleOfTen(x: nat, y: nat)
    ensures (x * (10 * y)) % 10 == 0
  {
    assert x * (10 * y) == 10 * (x * y);
  }

  lemma {:induction false} CancelFactor(x: int, y: int, z: nat)
    requires z > 0 && x * z == y * z
    ensures x == y
  {
    assert (x - y) * z == 0;
  }

  lemma {:induction false} SameQuotient(q: nat, r: nat, q': nat, r': nat, d: nat)
    requires r < d && r' < d && q * d + r == q' * d + r'
    ensures q == q' && r == r'
  {
    if q < q' {
      assert q' * d == q * d + (q' - q) * d;
      AtLeastOnce(q' - q, d);
    } else if q > q' {
      assert q * d == q' * d + (q - q') * d;
      AtLeastOnce(q - q', d);
    }
  }

  lemma {:induction false} SameNumberTransitive(a: Amount, b: Amount, c: Amount)
    requires a.Valid() && b.Valid() && c.Valid() && SameNumber(a, b) && SameNumber(b, c)
    ensures SameNumber(a, c) && SameNumber(b, a)
  {
    Chain(a.Numerator(), a.Denominator(), b.Numerator(), b.Denominator(), c.Numerator(), c.Denominator());
  }

  lemma {:induction false} Chain(n1: int, d1: nat, n2: int, d2: nat, n3: int, d3: nat)
    requires d2 > 0 && n1 * d2 == n2 * d1 && n2 * d3 == n3 * d2
    ensures n1 * d3 == n3 * d1
  {
    assert (n1 * d3) * d2 == (n1 * d2) * d3;
    assert (n2 * d1) * d3 == (n2 * d3) * d1;
    assert (n3 * d2) * d1 == (n3 * d1) * d2;
    CancelFactor(n1 * d3, n3 * d1, d2);
  }

  function UnsignedKey(a: Amount): string {
    a.integer + (if a.fraction == "" then "" else "." + a.fraction)
  }

  lemma {:induction false} KeyParts(a: Amount)
    requires a.Canonical()
    ensures a.Key() != "" && (a.negative <==> a.Key()[0] == '-')
    ensures (if a.negative then a.Key()[1..] else a.Key()) == UnsignedKey(a)
  {
    assert a.integer != "" && IsDigit(a.integer[0]);
    hide AllDigits, NoLeadingZero;
  }

  /** Different canonical amounts have different keys. */
  lemma {:induction false} KeyInjective(a: Amount, b: Amount)
    requires a.Canonical() && b.Canonical() && a.Key() == b.Key()
    ensures a == b
  {
    KeyParts(a);
    KeyParts(b);
    PointSplits(a, UnsignedKey(a));
    PointSplits(b, UnsignedKey(b));
    hide SplitOn, UnsignedKey;
  }

  lemma {:induction false} PointSplits(a: Amount, tail: string)
    requires a.Canonical() && tail == a.integer + (if a.fraction == "" then "" else "." + a.fraction)
    ensures a.fraction == "" <==> '.' !in tail
    ensures a.fraction == "" ==> tail == a.integer
    ensures a.fraction != "" ==> SplitOn(tail, IsPoint) == [a.integer, a.fraction]
  {
    if a.fraction != "" {
      assert tail == a.integer + ['.'] + a.fraction;
      SplitAfterPiece(a.integer, '.', a.fraction, IsPoint);
      SplitPiece(a.fraction, IsPoint);
      assert tail[|a.integer|] == '.';
    }
  }

  /** Keys of numbers agree exactly when the numbers do: grouping, the decimal sign that was used,
      leading and trailing zeros and a minus on zero leave no trace. */
  lemma {:induction false} KeysAgree(a: Amount, b: Amount)
    requires a.Valid() && b.Valid()
    ensures CanonicalDecimal(a.integer, a.fraction, a.negative) == CanonicalDecimal(b.integer, b.fraction, b.negative)
            <==> SameNumber(a, b)
  {
    var ca, cb := Canonicalized(a), Canonicalized(b);
    CanonicalizedSame(a);
    CanonicalizedSame(b);
    if ca.Key() == cb.Key() {
      KeyInjective(ca, cb);
      SameNumberTransitive(b, cb, b);
      SameNumberTransitive(a, ca, b);
    }
    if SameNumber(a, b) {
      SameNumberTransitive(a, ca, a);
      SameNumberTransitive(ca, a, b);
      SameNumberTransitive(ca, b, cb);
      CanonicalOnlyOnce(ca, cb);
    }
  }

  ghost function KeyOf(n: Numeral): string
    requires n.Valid()
  {
    PrintIsRun(n);
    NormalizeRun(n.Print())
  }

  lemma {:induction false} PrintIsRun(n: Numeral)
    requires n.Valid()
    ensures IsRun(n.Print())
  {
  }

  ghost predicate Readable(n: Numeral)
    requires n.Valid()
  {
    !ReadGroups(n.groups, n.separators).Unreadable?
  }

  ghost function AmountRead(n: Numeral): (a: Amount)
    requires n.Valid() && Readable(n)
    ensures a.Valid()
  {
    PrintIsRun(n);
    GroupsOfPrint(n);
    RunHasDigits(n.Print());
    AmountOf(n.sign == "-", ReadGroups(n.groups, n.separators))
  }

  /** The key of a written numeral, by what the numeral is read as. */
  lemma {:induction false} KeyOfNumeral(n: Numeral)
    requires n.Valid()
    ensures !Readable(n) ==> KeyOf(n) == "literal:" + n.Print()
    ensures Readable(n) ==> var a := AmountRead(n);
                            KeyOf(n) == CanonicalDecimal(a.integer, a.fraction, a.negative) == Canonicalized(a).Key()
  {
    PrintIsRun(n);
    GroupsOfPrint(n);
    RunHasDigits(n.Print());
    match ReadGroups(n.groups, n.separators)
    case Whole(digits) => IntegerKey(digits, n.sign == "-");
    case _ =>
  }

  /** Two written numerals get the same key exactly when they are read as the same rational number,
      or neither is readable and they are spelled alike. */
  lemma {:induction false} NumeralKeysAgree(m: Numeral, n: Numeral)
    requires m.Valid() && n.Valid()
    ensures KeyOf(m) == KeyOf(n)
            <==> if Readable(m) && Readable(n) then SameNumber(AmountRead(m), AmountRead(n))
                 else !Readable(m) && !Readable(n) && m.Print() == n.Print()
  {
    KeyOfNumeral(m);
    KeyOfNumeral(n);
    if Readable(m) && Readable(n) {
      KeysAgree(AmountRead(m), AmountRead(n));
    } else if !Readable(m) && !Readable(n) {
      assert KeyOf(m)[8..] == m.Print() && KeyOf(n)[8..] == n.Print();
    } else {
      assert KeyOf(m)[0] != KeyOf(n)[0];
    }
  }

  /** Digits printed in thousands groups with one separator throughout. */
  ghost predicate IsThousandsGrouped(n: Numeral, separator: char) {
    && n.Valid() && |n.groups| >= 2
    && |n.groups[0]| <= 3 && AllThree(n.groups[1..])
    && forall i :: 0 <= i < |n.separators| ==> n.separators[i] == separator
  }

  ghost function Ungrouped(n: Numeral): (u: Numeral)
    requires n.Valid()
    ensures u.Valid()
  {
    ConcatDigits(n.groups);
    assert n.groups == [n.groups[0]] + n.groups[1..];
    Numeral(n.sign, [Concat(n.groups)], "")
  }

  /** Thousands grouping is transparent, with one exception: a single point or comma before the last
      three digits is taken as a decimal sign, which only goes unnoticed for zero. */
  lemma {:induction false} GroupingIsTransparent(n: Numeral, separator: char)
    requires IsThousandsGrouped(n, separator)
    ensures KeyOf(n) == KeyOf(Ungrouped(n))
            <==> !IsPoint(separator) || |n.groups| > 2 || Value(Ungrouped(n).groups[0]) == 0
  {
    NumeralKeysAgree(n, Ungrouped(n));
    if |n.groups| == 2 && IsPoint(separator) {
      LonePointIsDecimal(n);
    } else {
      GroupedIsWhole(n, separator);
    }
  }

  lemma {:induction false} GroupedIsWhole(n: Numeral, separator: char)
    requires IsThousandsGrouped(n, separator) && (!IsPoint(separator) || |n.groups| > 2)
    ensures ReadGroups(n.groups, n.separators) == Whole(Concat(n.groups))
  {
    assert n.separators[|n.separators| - 1] == separator;
  }

  lemma {:induction false} LonePointIsDecimal(n: Numeral)
    requires n.Valid() && |n.groups| == 2 && IsThousandsGrouped(n, n.separators[0]) && IsPoint(n.separators[0])
    ensures Readable(n) && Readable(Ungrouped(n))
    ensures SameNumber(AmountRead(n), AmountRead(Ungrouped(n))) <==> Value(Ungrouped(n).groups[0]) == 0
  {
    var g, h := n.groups[0], n.groups[1];
    assert n.groups == [g] + [h];
    ConcatConcat([g], [h]);
    assert Concat([g]) == g && Concat([h]) == h;
    ConcatDigits(n.groups);
    assert |n.groups[1..][0]| == 3;
    assert ReadGroups(n.groups, n.separators) == Fraction(g, h);
    var negative := n.sign == "-";
    var m := Value(g + h);
    assert g + h + "" == g + h;
    ThousandTimes(Amount(negative, g, h), Amount(negative, g + h, ""), m);
  }

  lemma {:induction false} ThousandTimes(a: Amount, b: Amount, m: nat)
    requires a.Valid() && b.Valid() && a.negative == b.negative && |a.fraction| == 3 && b.fraction == ""
    requires a.Magnitude() == m && b.Magnitude() == m
    ensures SameNumber(a, b) <==> m == 0
  {
    assert Pow10(3) == 10 * Pow10(2) == 100 * Pow10(1) == 1000;
  }

  // --------------------------------------------------------------------------------------------
  // The reading of a numeral, by its shape alone
  // --------------------------------------------------------------------------------------------

  /** At most three digits, then three in every group. */
  ghost predicate InThousands(groups: seq<string>) {
    groups != [] && |groups[0]| <= 3 && AllThree(groups[1..])
  }

  ghost predicate OneSeparator(separators: string) {
    forall i, j :: 0 <= i < j < |separators| ==> separators[i] == separators[j]
  }

  /** The last separator is a point or a comma, and what is before it is a single group, or is grouped in thousands
      by another separator or with a last group that is none. */
  ghost predicate DecimalShape(n: Numeral)
    requires n.Valid()
  {
    var last := |n.groups| - 1;
    && last >= 1 && IsPoint(n.separators[last - 1])
    && (last == 1
        || (InThousands(n.groups[..last]) && !(|n.groups[last]| == 3 && OneSeparator(n.separators))))
  }

  /** One group; or grouped in thousands, and a point or comma that ends it is used throughout and more than once. */
  ghost predicate WholeShape(n: Numeral)
    requires n.Valid()
  {
    var last := |n.groups| - 1;
    || last == 0
    || (InThousands(n.groups)
        && (IsPoint(n.separators[last - 1]) ==> last > 1 && OneSeparator(n.separators)))
  }

  lemma {:induction false} NotOneSeparator(separators: string)
    requires separators != ""
    ensures OneSeparator(separators) <==>
              !exists i :: 0 <= i < |separators| - 1 && separators[i] != separators[|separators| - 1]
  {
    var m := |separators|;
    if OneSeparator(separators) {
      assert forall i :: 0 <= i < m - 1 ==> separators[i] == separators[m - 1];
    }
  }

  lemma {:induction false} ShapeIsRead(n: Numeral)
    requires n.Valid()
    ensures var last, r := |n.groups| - 1, ReadGroups(n.groups, n.separators);
            && (r.Fraction? <==> DecimalShape(n)) && (r.Whole? <==> WholeShape(n))
            && (r.Fraction? ==> r == Fraction(Concat(n.groups[..last]), n.groups[last]))
            && (r.Whole? ==> r == Whole(Concat(n.groups)))
  {
    var groups, separators := n.groups, n.separators;
    var last := |groups| - 1;
    if last == 0 {
      assert groups == [groups[0]];
    } else {
      NotOneSeparator(separators);
      ThousandsTail(groups);
      if last == 1 {
        assert groups[..1] == [groups[0]];
      }
    }
  }

  lemma {:induction false} ThousandsTail(groups: seq<string>)
    requires |groups| >= 2
    ensures var last := |groups| - 1;
            InThousands(groups) <==> InThousands(groups[..last]) && |groups[last]| == 3
  {
    var last := |groups| - 1;
    var front, tail := groups[..last], groups[1..];
    assert front[1..] == tail[..last - 1];
    assert tail[last - 1] == groups[last];
    assert forall i :: 0 <= i < |tail| ==> (i == last - 1 || tail[i] == front[1..][i]);
  }

  /** The key of a numeral by its shape: a fraction that is cut at the last separator, a whole number, or the numeral
      as it is written. */
  lemma {:induction false} KeyByShape(n: Numeral)
    requires n.Valid()
    ensures !(DecimalShape(n) && WholeShape(n))
    ensures var negative, last := n.sign == "-", |n.groups| - 1;
            var integer, whole := Concat(n.groups[..last]), Concat(n.groups);
            && AllDigits(integer) && AllDigits(whole)
            && KeyOf(n) == if DecimalShape(n) then Canonicalized(Amount(negative, integer, n.groups[last])).Key()
                           else if WholeShape(n) then Canonicalized(Amount(negative, whole, "")).Key()
                           else "literal:" + n.Print()
  {
    ShapeIsRead(n);
    KeyOfNumeral(n);
    ConcatDigits(n.groups);
    ConcatDigits(n.groups[..|n.groups| - 1]);
    hide DecimalShape, WholeShape, ReadGroups, KeyOf;
  }

  // --------------------------------------------------------------------------------------------
  // Decimals as people write them
  // --------------------------------------------------------------------------------------------

  /** Digits in groups of three, counted from the right. */
  ghost function GroupThousands(digits: string): (groups: seq<string>)
    requires digits != "" && AllDigits(digits)
    ensures groups != [] && Concat(groups) == digits && InThousands(groups)
    ensures forall i :: 0 <= i < |groups| ==> groups[i] != "" && AllDigits(groups[i])
  {
    var k := |digits| - 3;
    if k <= 0 then
      assert digits + "" == digits;
      [digits]
    else
      var front := GroupThousands(digits[..k]);
      ConcatConcat(front, [digits[k..]]);
      assert digits[k..] + "" == digits[k..] && digits == digits[..k] + digits[k..];
      ThousandsTail(front + [digits[k..]]);
      assert (front + [digits[k..]])[..|front|] == front;
      front + [digits[k..]]
  }

  ghost function Repeated(c: char, n: nat): (s: string)
    ensures |s| == n && forall i :: 0 <= i < n ==> s[i] == c
  {
    seq(n, _ => c)
  }

  /** The decimal `integer.fraction`, its integer in groups of thousands with `grouping` between them. */
  ghost function WrittenDecimal(sign: string, integer: string, grouping: char, point: char, fraction: string)
    : (n: Numeral)
    requires (sign == "" || sign == "-" || sign == "+") && IsSeparator(grouping) && IsPoint(point)
    requires integer != "" && AllDigits(integer) && fraction != "" && AllDigits(fraction)
    ensures n.Valid()
  {
    var groups := GroupThousands(integer);
    Numeral(sign, groups + [fraction], Repeated(grouping, |groups| - 1) + [point])
  }

  /** A decimal whose integer is grouped is read as that decimal, unless the decimal sign is also what groups it and
      three digits follow it; then the numeral is the whole number of all its digits, which goes unnoticed for zero. */
  lemma {:induction false} DecimalIsRead(sign: string, integer: string, grouping: char, point: char, fraction: string)
    requires (sign == "" || sign == "-" || sign == "+") && (point == '.' || point == ',')
    requires grouping in {'.', ',', '_', '\'', ' ', '\U{2019}', '\U{00A0}', '\U{202F}'}
    requires integer != "" && AllDigits(integer) && fraction != "" && AllDigits(fraction)
    ensures var n := WrittenDecimal(sign, integer, grouping, point, fraction);
            KeyOf(n) == Canonicalized(Amount(sign == "-", integer, fraction)).Key()
            <==> || |integer| <= 3 || grouping != point || |fraction| != 3
                 || Value(integer + fraction) == 0
  {
    assert IsPoint(point) && IsSeparator(grouping);
    hide *;
    var n := WrittenDecimal(sign, integer, grouping, point, fraction);
    WrittenShape(sign, integer, grouping, point, fraction);
    KeyByShape(n);
    WholeInstead(sign == "-", integer, fraction);
  }

  lemma {:induction false} WholeInstead(negative: bool, integer: string, fraction: string)
    requires AllDigits(integer) && AllDigits(fraction)
    ensures AllDigits(integer + fraction)
    ensures var whole, decimal := Amount(negative, integer + fraction, ""), Amount(negative, integer, fraction);
            |fraction| == 3 ==>
              (Canonicalized(whole).Key() == Canonicalized(decimal).Key() <==> Value(integer + fraction) == 0)
  {
    var whole, decimal := Amount(negative, integer + fraction, ""), Amount(negative, integer, fraction);
    assert integer + fraction + "" == integer + fraction;
    if |fraction| == 3 {
      KeysAgree(decimal, whole);
      ThousandTimes(decimal, whole, Value(integer + fraction));
    }
    hide SameNumber, Canonicalized, CanonicalDecimal;
  }

  lemma {:induction false} WrittenShape(sign: string, integer: string, grouping: char, point: char, fraction: string)
    requires (sign == "" || sign == "-" || sign == "+") && IsSeparator(grouping) && IsPoint(point)
    requires integer != "" && AllDigits(integer) && fraction != "" && AllDigits(fraction)
    ensures var n := WrittenDecimal(sign, integer, grouping, point, fraction);
            var last := |n.groups| - 1;
            && n.sign == sign && Concat(n.groups[..last]) == integer && n.groups[last] == fraction
            && Concat(n.groups) == integer + fraction
            && (DecimalShape(n) <==> |integer| <= 3 || grouping != point || |fraction| != 3)
            && (!DecimalShape(n) ==> WholeShape(n))
  {
    var groups := GroupThousands(integer);
    var n := WrittenDecimal(sign, integer, grouping, point, fraction);
    assert n.groups[..|groups|] == groups;
    ConcatConcat(groups, [fraction]);
    assert fraction + "" == fraction;
    ThousandsCount(integer);
    ThousandsTail(n.groups);
    WrittenSeparators(grouping, |groups| - 1, point);
    hide GroupThousands, InThousands;
  }

  lemma {:induction false} WrittenSeparators(grouping: char, k: nat, point: char)
    ensures var s := Repeated(grouping, k) + [point];
            |s| == k + 1 && s[k] == point && (OneSeparator(s) <==> k == 0 || grouping == point)
  {
    var s := Repeated(grouping, k) + [point];
    if k > 0 {
      assert s[0] == grouping;
    }
  }

  lemma {:induction false} ThousandsCount(digits: string)
    requires digits != "" && AllDigits(digits)
    ensures |GroupThousands(digits)| == 1 <==> |digits| <= 3
  {
  }
}
