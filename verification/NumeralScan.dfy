/** The character loop of `numeric_literal_values` in `llm/citations.rs`. */
module NumeralScan {
  import opened Decimal
  import opened Text
  import opened Numerals

  datatype Step = Extend(run: string) | Flush

  predicate DigitAt(text: string, i: nat) {
    i < |text| && IsDigit(text[i])
  }

  predicate OnlySign(run: string) {
    run == "-" || run == "+"
  }

  /** What one character does to the run collected so far, looking one character ahead. */
  function Next(text: string, i: nat, run: string): Step
    requires i < |text|
  {
    var c := text[i];
    if IsDigit(c) then Extend(run + [c])
    else if run != "" && !OnlySign(run) && IsSeparator(c) && DigitAt(text, i + 1) then Extend(run + [c])
    else if (run == "" || OnlySign(run)) && IsPoint(c) && DigitAt(text, i + 1) then Extend(run + "0" + [c])
    else if run == "" && IsSign(c) && i + 1 < |text| && (IsDigit(text[i + 1]) || IsPoint(text[i + 1])) then Extend([c])
    else Flush
  }

  function Flushed(run: string): seq<string> {
    if HasDigit(run) then [run] else []
  }

  /** The runs the loop flushes from position `i` on, with `run` already collected. */
  function Runs(text: string, i: nat, run: string): (runs: seq<string>)
    requires i <= |text|
    decreases |text| - i
  {
    if i == |text| then Flushed(run) else
    match Next(text, i, run)
    case Extend(longer) => Runs(text, i + 1, longer)
    case Flush => Flushed(run) + Runs(text, i + 1, "")
  }

  ghost predicate AllRuns(runs: seq<string>) {
    forall i :: 0 <= i < |runs| ==> IsRun(runs[i])
  }

  function Keys(runs: seq<string>): (keys: seq<string>)
    requires AllRuns(runs)
    ensures |keys| == |runs| && forall i :: 0 <= i < |runs| ==> keys[i] == NormalizeRun(runs[i])
  {
    if runs == [] then [] else [NormalizeRun(runs[0])] + Keys(runs[1..])
  }

  function LiteralValues(text: string): seq<string> {
    RunsAreRuns(text, 0, "");
    Keys(Runs(text, 0, ""))
  }

  method NumericLiteralValues(text: string) returns (values: seq<string>)
    ensures values == LiteralValues(text)
  {
    values := [];
    var run := "";
    RunsAreRuns(text, 0, "");
    for i := 0 to |text|
      invariant ReadSoFar(text, i, run, values)
    {
      ReadStep(text, i, run, values);
      match Next(text, i, run) {
        case Extend(longer) => run := longer;
        case Flush =>
          if HasDigit(run) {
            values := values + [NormalizeRun(run)];
          }
          run := "";
      }
    }
    KeysEnd(text, run);
    if HasDigit(run) {
      values := values + [NormalizeRun(run)];
    }
  }

  /** The loop invariant: the values so far and those of the text still to read make up the answer. */
  ghost predicate ReadSoFar(text: string, i: nat, run: string, values: seq<string>)
    requires i <= |text|
  {
    && Partial(text, i, run) && AllRuns(Runs(text, i, run))
    && values + Keys(Runs(text, i, run)) == LiteralValues(text)
  }

  lemma {:induction false} ReadStep(text: string, i: nat, run: string, values: seq<string>)
    requires i < |text| && ReadSoFar(text, i, run, values)
    ensures match Next(text, i, run)
            case Extend(longer) => ReadSoFar(text, i + 1, longer, values)
            case Flush => if !HasDigit(run) then ReadSoFar(text, i + 1, "", values)
                          else IsRun(run) && ReadSoFar(text, i + 1, "", values + [NormalizeRun(run)])
  {
    KeysStep(text, i, run);
    if Next(text, i, run).Flush? && HasDigit(run) {
      Reassociate(values, NormalizeRun(run), Keys(Runs(text, i + 1, "")));
    }
  }

  lemma {:induction false} Reassociate(a: seq<string>, k: string, b: seq<string>)
    ensures a + ([k] + b) == a + [k] + b
  {
  }

  lemma {:induction false} KeysStep(text: string, i: nat, run: string)
    requires i < |text| && Partial(text, i, run) && AllRuns(Runs(text, i, run))
    ensures match Next(text, i, run)
            case Extend(longer) =>
              && Partial(text, i + 1, longer) && AllRuns(Runs(text, i + 1, longer))
              && Keys(Runs(text, i, run)) == Keys(Runs(text, i + 1, longer))
            case Flush =>
              && AllRuns(Runs(text, i + 1, "")) && (HasDigit(run) ==> IsRun(run))
              && Keys(Runs(text, i, run)) == (var rest := Keys(Runs(text, i + 1, ""));
                                              if HasDigit(run) then [NormalizeRun(run)] + rest else rest)
  {
    PartialStep(text, i, run);
    if Next(text, i, run).Flush? {
      var rest := Runs(text, i + 1, "");
      RunsAreRuns(text, i + 1, "");
      if HasDigit(run) {
        assert ([run] + rest)[1..] == rest;
      } else {
        assert [] + rest == rest;
      }
    }
  }

  lemma {:induction false} KeysEnd(text: string, run: string)
    requires AllRuns(Runs(text, |text|, run))
    ensures HasDigit(run) ==> IsRun(run)
    ensures Keys(Runs(text, |text|, run)) == if HasDigit(run) then [NormalizeRun(run)] else []
  {
    if HasDigit(run) {
      assert Runs(text, |text|, run)[0] == run;
    }
  }

  // --------------------------------------------------------------------------------------------
  // Every flushed run has the shape  sign? digits (separator digits)*
  // --------------------------------------------------------------------------------------------

  /** A run under construction at position `i`: nothing, a sign waiting for its digits, a numeral, or
      a numeral with a separator that is about to be followed by a digit. */
  ghost predicate Partial(text: string, i: nat, run: string) {
    || run == "" || OnlySign(run) || IsRun(run)
    || (DigitAt(text, i) && IsOpenRun(run))
  }

  ghost predicate IsOpenRun(run: string) {
    run != "" && IsSeparator(run[|run| - 1]) && IsRun(run[..|run| - 1])
  }

  lemma {:induction false} FirstDigit(sign: string, d: char)
    requires (sign == "" || OnlySign(sign)) && IsDigit(d)
    ensures IsRun(sign + [d])
  {
    var n := Numeral(sign, [[d]], "");
    assert n.Valid() && n.Print() == sign + [d];
  }

  lemma {:induction false} BodyLast(groups: seq<string>, separators: string, g: string)
    requires |groups| == |separators| + 1
    ensures Body(groups[|groups| - 1 := groups[|groups| - 1] + g], separators) == Body(groups, separators) + g
  {
    var longer := groups[|groups| - 1 := groups[|groups| - 1] + g];
    if separators != "" {
      BodyLast(groups[1..], separators[1..], g);
      assert longer[1..] == groups[1..][|groups| - 2 := groups[|groups| - 1] + g];
    }
  }

  lemma {:induction false} BodySnoc(groups: seq<string>, separators: string, c: char, g: string)
    requires |groups| == |separators| + 1
    ensures Body(groups + [g], separators + [c]) == Body(groups, separators) + [c] + g
  {
    if separators == "" {
      assert groups + [g] == [groups[0], g];
    } else {
      BodySnoc(groups[1..], separators[1..], c, g);
      assert (groups + [g])[1..] == groups[1..] + [g];
      assert (separators + [c])[1..] == separators[1..] + [c];
    }
  }

  lemma {:induction false} MoreDigits(run: string, d: char)
    requires IsRun(run) && IsDigit(d)
    ensures IsRun(run + [d])
  {
    var n: Numeral :| n.Valid() && n.Print() == run;
    var last := |n.groups| - 1;
    BodyLast(n.groups, n.separators, [d]);
    var m := n.(groups := n.groups[last := n.groups[last] + [d]]);
    assert m.Valid() && m.Print() == run + [d];
  }

  lemma {:induction false} NextGroup(run: string, d: char)
    requires IsOpenRun(run) && IsDigit(d)
    ensures IsRun(run + [d])
  {
    var closed, c := run[..|run| - 1], run[|run| - 1];
    var n: Numeral :| n.Valid() && n.Print() == closed;
    BodySnoc(n.groups, n.separators, c, [d]);
    var m := Numeral(n.sign, n.groups + [[d]], n.separators + [c]);
    assert m.Valid() && m.Print() == run + [d];
  }

  lemma {:induction false} PartialStep(text: string, i: nat, run: string)
    requires i < |text| && Partial(text, i, run)
    ensures match Next(text, i, run)
            case Extend(longer) => Partial(text, i + 1, longer)
            case Flush => HasDigit(run) ==> IsRun(run)
  {
    var c := text[i];
    if IsDigit(c) {
      if run == "" || OnlySign(run) {
        FirstDigit(run, c);
      } else if IsRun(run) {
        MoreDigits(run, c);
      } else {
        NextGroup(run, c);
      }
    } else if (run == "" || OnlySign(run)) && IsPoint(c) && DigitAt(text, i + 1) {
      FirstDigit(run, '0');
      assert (run + "0" + [c])[..|run| + 1] == run + "0";
    } else if run != "" && !OnlySign(run) && IsSeparator(c) && DigitAt(text, i + 1) {
      assert (run + [c])[..|run|] == run;
    }
  }

  /** Nothing but well-formed numerals ever reaches the normaliser. */
  lemma {:induction false} RunsAreRuns(text: string, i: nat, run: string)
    requires i <= |text| && Partial(text, i, run)
    ensures AllRuns(Runs(text, i, run))
    decreases |text| - i
  {
    if i < |text| {
      PartialStep(text, i, run);
      match Next(text, i, run)
      case Extend(longer) => RunsAreRuns(text, i + 1, longer);
      case Flush => RunsAreRuns(text, i + 1, "");
    }
  }

  // --------------------------------------------------------------------------------------------
  // A written numeral is read back whole, wherever it stands
  // --------------------------------------------------------------------------------------------

  /** Each character of a printed numeral is a digit, a leading sign, or a separator between digits. */
  ghost predicate DigitsAround(p: string, start: nat) {
    && start < |p| && IsDigit(p[start]) && IsDigit(p[|p| - 1])
    && forall m :: start <= m < |p| && !IsDigit(p[m])
         ==> start < m < |p| - 1 && IsSeparator(p[m]) && IsDigit(p[m - 1]) && IsDigit(p[m + 1])
  }

  lemma {:induction false} BodyDigitsAround(groups: seq<string>, separators: string)
    requires Numeral("", groups, separators).Valid()
    ensures DigitsAround(Body(groups, separators), 0)
  {
    if separators != "" {
      var rest := Body(groups[1..], separators[1..]);
      BodyDigitsAround(groups[1..], separators[1..]);
      var p, k := Body(groups, separators), |groups[0]|;
      assert forall m :: k + 1 <= m < |p| ==> p[m] == rest[m - k - 1];
    }
  }

  /** The numeral `n` stands at `i` and nothing after it can join it. */
  ghost predicate StandsAt(text: string, i: nat, n: Numeral) {
    && n.Valid()
    && var e := i + |n.Print()|;
    && e <= |text| && text[i..e] == n.Print()
    && !DigitAt(text, e)
    && !(e < |text| && IsSeparator(text[e]) && DigitAt(text, e + 1))
  }

  lemma {:induction false} ReadsOn(text: string, i: nat, n: Numeral, m: nat)
    requires StandsAt(text, i, n) && m <= |n.Print()|
    ensures Runs(text, i, "") == Runs(text, i + m, n.Print()[..m])
  {
    if m > 0 {
      ReadsOn(text, i, n, m - 1);
      NextExtends(text, i, n, m);
      hide StandsAt, Next;
    }
  }

  lemma {:induction false} NextExtends(text: string, i: nat, n: Numeral, m: nat)
    requires StandsAt(text, i, n) && 0 < m <= |n.Print()|
    ensures i + m <= |text| && Next(text, i + m - 1, n.Print()[..m - 1]) == Extend(n.Print()[..m])
  {
    var p, j := n.Print(), i + m - 1;
    PrintShape(n, m - 1);
    StandsInText(text, i, n, m);
    assert p[..m] == p[..m - 1] + [p[m - 1]];
    var run, c := p[..m - 1], p[m - 1];
    hide StandsAt, IsDigit, IsSeparator;
    if IsDigit(c) {
      NextDigit(text, j, run);
    } else if m == 1 {
      NextSign(text, j);
    } else {
      NextSeparator(text, j, run);
    }
  }

  /** A character of a printed numeral that is not a digit is its sign or separates two digits. */
  lemma {:induction false} PrintShape(n: Numeral, k: nat)
    requires n.Valid() && k < |n.Print()|
    ensures var p := n.Print();
            IsDigit(p[k]) ||
            (&& k + 1 < |p| && IsDigit(p[k + 1])
            && if k == 0 then p[0] == '-' || p[0] == '+' else IsSeparator(p[k]) && IsDigit(p[k - 1]))
  {
    PrintDigitsAround(n);
    var p, s := n.Print(), |n.sign|;
    assert p[..s] == n.sign;
    if k < s {
      assert p[0] == n.sign[0];
    }
  }

  lemma {:induction false} NextDigit(text: string, j: nat, run: string)
    requires j < |text| && IsDigit(text[j])
    ensures Next(text, j, run) == Extend(run + [text[j]])
  {
  }

  lemma {:induction false} StandsInText(text: string, i: nat, n: Numeral, m: nat)
    requires StandsAt(text, i, n) && 0 < m <= |n.Print()|
    ensures i + m <= |text| && text[i + m - 1] == n.Print()[m - 1]
    ensures m < |n.Print()| ==> i + m < |text| && text[i + m] == n.Print()[m]
  {
    var p := n.Print();
    assert text[i..i + |p|][m - 1] == p[m - 1];
    assert m < |p| ==> text[i..i + |p|][m] == p[m];
  }

  lemma {:induction false} NextSeparator(text: string, j: nat, run: string)
    requires j < |text| && IsSeparator(text[j]) && !IsDigit(text[j]) && DigitAt(text, j + 1)
    requires run != "" && IsDigit(run[|run| - 1])
    ensures Next(text, j, run) == Extend(run + [text[j]])
  {
  }

  lemma {:induction false} NextSign(text: string, j: nat)
    requires j < |text| && (text[j] == '-' || text[j] == '+') && DigitAt(text, j + 1)
    ensures Next(text, j, "") == Extend([text[j]])
  {
  }

  lemma {:induction false} PrintDigitsAround(n: Numeral)
    requires n.Valid()
    ensures DigitsAround(n.Print(), |n.sign|)
  {
    var p, s := n.Print(), |n.sign|;
    var body := Body(n.groups, n.separators);
    BodyDigitsAround(n.groups, n.separators);
    hide Body;
    assert forall k :: s <= k < |p| ==> p[k] == body[k - s];
  }

  /** A numeral that begins where no run is open is collected as exactly one run; the text after it is
      read as if the numeral had not been there. */
  lemma {:induction false} NumeralIsOneRun(text: string, i: nat, n: Numeral)
    requires StandsAt(text, i, n)
    ensures var e := i + |n.Print()|;
            Runs(text, i, "") == [n.Print()] + if e < |text| then Runs(text, e + 1, "") else []
  {
    var p := n.Print();
    assert p[..|p|] == p;
    ReadsOn(text, i, n, |p|);
    PrintIsNumber(n);
    RunEnds(text, i + |p|, p);
  }

  lemma {:induction false} PrintIsNumber(n: Numeral)
    requires n.Valid()
    ensures HasDigit(n.Print()) && n.Print() != "" && !OnlySign(n.Print())
  {
    PrintDigitsAround(n);
    hide Body;
    assert IsDigit(n.Print()[|n.sign|]);
  }

  /** A run that the next character cannot join is flushed there. */
  lemma {:induction false} RunEnds(text: string, e: nat, run: string)
    requires e <= |text| && HasDigit(run) && run != "" && !OnlySign(run)
    requires !DigitAt(text, e) && !(e < |text| && IsSeparator(text[e]) && DigitAt(text, e + 1))
    ensures Runs(text, e, run) == [run] + if e < |text| then Runs(text, e + 1, "") else []
  {
    hide HasDigit;
  }

  /** A numeral on its own has one value: its key. */
  lemma {:induction false} NumeralAlone(n: Numeral)
    requires n.Valid()
    ensures LiteralValues(n.Print()) == [KeyOf(n)]
  {
    var text := n.Print();
    assert text[0..0 + |text|] == text;
    NumeralIsOneRun(text, 0, n);
    RunsAreRuns(text, 0, "");
    assert Runs(text, 0, "") == [text];
  }

  /** Reading a canonical key gives that key back: keys are fixed points of the whole reader. */
  lemma {:induction false} KeyIsFixedPoint(a: Amount)
    requires a.Canonical()
    ensures LiteralValues(a.Key()) == [a.Key()]
  {
    var n := WrittenKey(a);
    NumeralAlone(n);
    KeyOfNumeral(n);
    CanonicalizedSame(a);
    CanonicalOnlyOnce(a, Canonicalized(a));
  }

  /** A canonical key, seen as a numeral. */
  lemma {:induction false} WrittenKey(a: Amount) returns (n: Numeral)
    requires a.Canonical()
    ensures n.Valid() && n.Print() == a.Key() && Readable(n) && AmountRead(n) == a
  {
    var sign := if a.negative then "-" else "";
    if a.fraction == "" {
      n := Numeral(sign, [a.integer], "");
    } else {
      n := Numeral(sign, [a.integer, a.fraction], ".");
      var groups := n.groups;
      assert groups[1..] == [a.fraction] && n.separators[1..] == "";
      assert groups[..1] == [a.integer] && Concat([a.integer]) == a.integer;
      assert Body(groups, ".") == a.integer + "." + a.fraction == a.integer + ("." + a.fraction);
      assert ReadGroups(groups, ".") == Fraction(a.integer, a.fraction);
    }
  }

  // --------------------------------------------------------------------------------------------
  // A decimal without an integer
  // --------------------------------------------------------------------------------------------

  lemma {:induction false} DigitsToTheEnd(text: string, i: nat, run: string)
    requires i <= |text| && forall k :: i <= k < |text| ==> IsDigit(text[k])
    ensures Runs(text, i, run) == Flushed(run + text[i..])
    decreases |text| - i
  {
    if i < |text| {
      DigitsToTheEnd(text, i + 1, run + [text[i]]);
      assert run + [text[i]] + text[i + 1..] == run + text[i..];
    } else {
      assert run + text[i..] == run;
    }
  }

  /** A decimal that starts with its point, with a sign before it or without, is read with a zero before the point. */
  lemma {:induction false} LeadingPointIsRead(sign: string, point: char, fraction: string)
    requires (sign == "" || sign == "-" || sign == "+") && (point == '.' || point == ',')
    requires fraction != "" && AllDigits(fraction)
    ensures LiteralValues(sign + [point] + fraction) == [Canonicalized(Amount(sign == "-", "0", fraction)).Key()]
  {
    var text := sign + [point] + fraction;
    var n := Numeral(sign, ["0", fraction], [point]);
    LeadingPointRuns(sign, point, fraction);
    assert n.groups[1..] == [fraction] && n.separators[1..] == "" && n.groups[..1] == ["0"];
    assert Body(n.groups, n.separators) == "0" + [point] + Body([fraction], "") == "0" + [point] + fraction;
    assert sign + ("0" + [point] + fraction) == sign + "0" + [point] + fraction;
    assert Concat(["0"]) == "0" + Concat([]) == "0";
    KeyByShape(n);
    PrintIsRun(n);
    RunsAreRuns(text, 0, "");
    hide Runs, NormalizeRun, Canonicalized, WholeShape;
    assert Keys([n.Print()]) == [NormalizeRun(n.Print())] + Keys([]);
  }

  lemma {:induction false} LeadingPointRuns(sign: string, point: char, fraction: string)
    requires (sign == "" || sign == "-" || sign == "+") && (point == '.' || point == ',')
    requires fraction != "" && AllDigits(fraction)
    ensures Runs(sign + [point] + fraction, 0, "") == [sign + "0" + [point] + fraction]
  {
    var text, s := sign + [point] + fraction, |sign|;
    assert text[s] == point && text[s + 1] == fraction[0] && text[s + 1..] == fraction;
    if sign != "" {
      assert text[0] == sign[0] && [sign[0]] == sign;
      assert Next(text, 0, "") == Extend(sign);
    }
    assert Next(text, s, sign) == Extend(sign + "0" + [point]);
    assert Runs(text, 0, "") == Runs(text, s, sign) == Runs(text, s + 1, sign + "0" + [point]);
    forall k | s + 1 <= k < |text| ensures IsDigit(text[k]) {
      assert text[k] == fraction[k - s - 1];
    }
    DigitsToTheEnd(text, s + 1, sign + "0" + [point]);
    var run := sign + "0" + [point] + fraction;
    assert run[s + 2] == fraction[0];
    hide Runs, Next;
  }
}
