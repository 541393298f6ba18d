/** Where two texts meet: when the numerals and the number words of `llm/citations.rs` at the end of the one and at
    the start of the other join. */
module Seams {
  import opened Wrappers
  import opened Decimal
  import opened Sequences
  import opened Numerals
  import opened NumeralScan
  import opened Vocabulary
  import opened NumberWords
  import opened Claims

  // --------------------------------------------------------------------------------------------
  // Numerals
  // --------------------------------------------------------------------------------------------

  /** A digit, a separator and a digit meet. */
  predicate JoinsNumeral(text: string, c: char, more: string) {
    text != "" && IsDigit(text[|text| - 1]) && IsSeparator(c) && DigitAt(more, 0)
  }

  lemma {:induction false} NextBefore(text: string, c: char, more: string, i: nat, run: string)
    requires !IsDigit(c) && i < |text|
    ensures
      || Next(text + [c] + more, i, run) == Next(text, i, run)
      || (i + 1 == |text| && run == "" && Next(text, i, run) == Flush && !IsDigit(text[i]))
    ensures i + 1 == |text| && Next(text, i, run).Extend? ==> IsDigit(text[i])
  {
    var all := text + [c] + more;
    assert all[i] == text[i] && all[|text|] == c;
    assert i + 1 < |text| ==> all[i + 1] == text[i + 1];
    assert DigitAt(all, i + 1) == DigitAt(text, i + 1);
  }

  lemma {:induction false} NextAtSeam(text: string, c: char, more: string, run: string)
    requires !IsDigit(c) && HasDigit(run)
    ensures Next(text + [c] + more, |text|, run)
            == if IsSeparator(c) && DigitAt(more, 0) then Extend(run + [c]) else Flush
  {
    var all := text + [c] + more;
    assert all[|text|] == c;
    assert DigitAt(all, |text| + 1) == DigitAt(more, 0) by {
      assert more != "" ==> all[|text| + 1] == more[0];
    }
  }

  lemma {:induction false} RunsUnfold(text: string, i: nat, run: string)
    requires i < |text|
    ensures Runs(text, i, run) == match Next(text, i, run)
                                  case Extend(longer) => Runs(text, i + 1, longer)
                                  case Flush => Flushed(run) + Runs(text, i + 1, "")
  {
    hide Next, Flushed;
  }

  lemma {:induction false} RunsAtEnd(text: string, run: string)
    ensures Runs(text, |text|, run) == if HasDigit(run) then [run] else []
  {
  }

  /** Where nothing joins, the runs of the longer text begin with those of the shorter. */
  lemma {:induction false} RunsGrow(text: string, c: char, more: string, i: nat, run: string)
      returns (tail: seq<string>)
    requires !IsDigit(c) && !JoinsNumeral(text, c, more) && i <= |text|
    requires i == |text| && HasDigit(run) ==> text != "" && IsDigit(text[|text| - 1])
    ensures Runs(text + [c] + more, i, run) == Runs(text, i, run) + tail
    decreases |text| - i
  {
    var all := text + [c] + more;
    hide Next, Runs, Flushed, HasDigit, IsSeparator, IsDigit;
    if i == |text| {
      RunsAtEnd(text, run);
      tail := Runs(all, i, run);
      if HasDigit(run) {
        NextAtSeam(text, c, more, run);
        RunsUnfold(all, i, run);
        tail := Runs(all, i + 1, "");
        FlushedIs(run);
      }
    } else {
      NextBefore(text, c, more, i, run);
      RunsUnfold(text, i, run);
      RunsUnfold(all, i, run);
      NoDigitYet();
      if Next(all, i, run) != Next(text, i, run) {
        RunsAtEnd(text, "");
        tail := Runs(all, i, run);
      } else {
        match Next(text, i, run)
        case Extend(longer) => tail := RunsGrow(text, c, more, i + 1, longer);
        case Flush =>
          tail := RunsGrow(text, c, more, i + 1, "");
          Sequences.Regroup(Flushed(run), Runs(text, i + 1, ""), tail);
      }
    }
  }

  lemma {:induction false} FlushedIs(run: string)
    ensures Flushed(run) == if HasDigit(run) then [run] else []
  {
  }

  lemma {:induction false} NoDigitYet()
    ensures !HasDigit("") && Flushed("") == []
  {
  }

  /** A run that is open stays at the front of the first one flushed. */
  lemma {:induction false} OpenRunIsFirst(text: string, i: nat, run: string)
    requires i <= |text| && HasDigit(run)
    ensures Runs(text, i, run) != [] && run <= Runs(text, i, run)[0]
    decreases |text| - i
  {
    hide HasDigit, Runs;
    FlushedIs(run);
    if i == |text| {
      RunsAtEnd(text, run);
    } else {
      RunsUnfold(text, i, run);
      match Next(text, i, run)
      case Extend(longer) =>
        LongerHasDigit(run, longer);
        OpenRunIsFirst(text, i + 1, longer);
      case Flush =>
    }
  }

  lemma {:induction false} LongerHasDigit(run: string, longer: string)
    ensures HasDigit(run) && run <= longer ==> HasDigit(longer)
  {
    assert run <= longer ==> longer == run + longer[|run|..];
    assert forall k :: 0 <= k < |run| && run <= longer ==> longer[k] == run[k];
  }

  lemma {:induction false} LastDigit(run: string)
    ensures run != "" && IsDigit(run[|run| - 1]) ==> HasDigit(run)
  {
  }

  /** A numeral that goes on behind the seam is another run than the one it was. */
  lemma {:induction false} RunsJoin(text: string, c: char, more: string, i: nat, run: string)
    requires !IsDigit(c) && JoinsNumeral(text, c, more) && i <= |text|
    requires i == |text| ==> HasDigit(run)
    ensures !(Runs(text, i, run) <= Runs(text + [c] + more, i, run))
    decreases |text| - i
  {
    var all := text + [c] + more;
    hide Next, Runs, Flushed, HasDigit, IsSeparator, IsDigit;
    if i == |text| {
      RunsAtEnd(text, run);
      NextAtSeam(text, c, more, run);
      RunsUnfold(all, i, run);
      LongerHasDigit(run, run + [c]);
      OpenRunIsFirst(all, i + 1, run + [c]);
    } else {
      NextBefore(text, c, more, i, run);
      RunsUnfold(text, i, run);
      RunsUnfold(all, i, run);
      match Next(text, i, run)
      case Extend(longer) =>
        if i + 1 == |text| {
          DigitExtends(text, i, run);
          LastDigit(longer);
        }
        RunsJoin(text, c, more, i + 1, longer);
      case Flush =>
        DigitExtends(text, i, run);
        RunsJoin(text, c, more, i + 1, "");
        PrefixOfSum(Flushed(run), Runs(text, i + 1, ""), Runs(all, i + 1, ""));
    }
  }

  lemma {:induction false} DigitExtends(text: string, i: nat, run: string)
    requires i < |text|
    ensures IsDigit(text[i]) ==> Next(text, i, run) == Extend(run + [text[i]])
  {
  }

  lemma {:induction false} PrefixOfSum<T>(a: seq<T>, b: seq<T>, d: seq<T>)
    ensures a + b <= a + d <==> b <= d
  {
    assert (a + b)[|a|..] == b && (a + d)[|a|..] == d;
    if a + b <= a + d {
      assert forall k :: 0 <= k < |b| ==> d[k] == (a + d)[|a| + k] == (a + b)[|a| + k];
    }
  }

  /** The runs of the longer text begin with those of the shorter exactly when no numeral is joined. */
  lemma {:induction false} RunsStay(text: string, c: char, more: string)
    requires !IsDigit(c)
    ensures Runs(text, 0, "") <= Runs(text + [c] + more, 0, "") <==> !JoinsNumeral(text, c, more)
  {
    hide Runs, IsSeparator;
    if JoinsNumeral(text, c, more) {
      RunsJoin(text, c, more, 0, "");
    } else {
      var tail := RunsGrow(text, c, more, 0, "");
    }
  }

  lemma {:induction false} KeysConcat(a: seq<string>, b: seq<string>)
    requires AllRuns(a) && AllRuns(b) && AllRuns(a + b)
    ensures Keys(a + b) == Keys(a) + Keys(b)
  {
    hide NormalizeRun;
    if a == [] {
      assert a + b == b;
    } else {
      assert (a + b)[1..] == a[1..] + b;
      KeysConcat(a[1..], b);
    }
  }

  lemma {:induction false} LiteralsStay(text: string, c: char, more: string)
    requires !IsDigit(c) && !JoinsNumeral(text, c, more)
    ensures LiteralValues(text) <= LiteralValues(text + [c] + more)
  {
    var all := text + [c] + more;
    var tail := RunsGrow(text, c, more, 0, "");
    var runs := Runs(text, 0, "");
    RunsAreRuns(text, 0, "");
    RunsAreRuns(all, 0, "");
    assert AllRuns(tail) by {
      assert forall k: nat :: k < |tail| ==> tail[k] == (runs + tail)[|runs| + k];
    }
    KeysConcat(runs, tail);
    hide Runs, Keys, AllRuns;
  }

  // --------------------------------------------------------------------------------------------
  // Number words
  // --------------------------------------------------------------------------------------------

  /** No number goes on over this word. */
  predicate Stops(w: Word) {
    w.Other? || w.Numeric?
  }

  /** Whether a number is open behind these words, if one was open before them or not. */
  predicate EndsOpen(words: seq<Word>, open: bool) {
    if words == [] then open
    else EndsOpen(words[1..], if words[0].Conjunction? then open else !Stops(words[0]))
  }

  /** A number that is open goes on in these words: behind conjunctions there is a number word. */
  predicate GoesOn(words: seq<Word>) {
    words != [] && if words[0].Conjunction? then GoesOn(words[1..]) else !Stops(words[0])
  }

  /** How many stretches of number words, with or without conjunctions between them, begin in these words. */
  function Stretches(words: seq<Word>, open: bool): nat {
    if words == [] then 0
    else if words[0].Conjunction? then Stretches(words[1..], open)
    else if Stops(words[0]) then Stretches(words[1..], false)
    else (if open then 0 else 1) + Stretches(words[1..], true)
  }

  lemma {:induction false} StretchesJoin(a: seq<Word>, b: seq<Word>, open: bool)
    ensures Stretches(a + b, open) == Stretches(a, open) + Stretches(b, EndsOpen(a, open))
  {
    if a == [] {
      assert a + b == b;
    } else {
      assert (a + b)[1..] == a[1..] + b;
      StretchesJoin(a[1..], b, if a[0].Conjunction? then open else !Stops(a[0]));
    }
  }

  lemma {:induction false} OpenSavesOne(words: seq<Word>)
    ensures Stretches(words, false) == Stretches(words, true) + if GoesOn(words) then 1 else 0
  {
    if words != [] && words[0].Conjunction? {
      OpenSavesOne(words[1..]);
    }
  }

  lemma {:induction false} OpenIsMore(words: seq<Word>)
    ensures EndsOpen(words, false) ==> EndsOpen(words, true)
  {
    if words != [] && words[0].Conjunction? {
      OpenIsMore(words[1..]);
    }
  }

  lemma {:induction false} SuffixIsClosed(words: seq<Word>, k: nat)
    requires !EndsOpen(words, false) && k <= |words|
    ensures !EndsOpen(words[k..], false)
  {
    if k > 0 {
      OpenIsMore(words[1..]);
      SuffixIsClosed(words[1..], k - 1);
      assert words[1..][k - 1..] == words[k..];
    }
  }

  // How far a number reaches

  /** A number that was begun is read up to the end of its stretch. */
  lemma {:induction false} ReadsTheStretch(words: seq<Word>, p: Parser)
    requires p.sawNumber && ParseFrom(words, p).Some?
    ensures var k := ParseFrom(words, p).value.1 - p.consumed;
            Stretches(words, true) == Stretches(words[k..], false)
    decreases |words|
  {
    hide *;
    if words == [] {
      EmptyStretch();
      assert words[ParseFrom(words, p).value.1 - p.consumed..] == [];
    } else {
      ParseUnfold(words, p);
      var k := ParseFrom(words, p).value.1 - p.consumed;
      match Turn(words, p) {
        case Skip =>
          SkipIsConjunction(words, p);
          ReadsTheStretch(words[1..], p.(consumed := p.consumed + 1));
          assert words[1..][k - 1..] == words[k..];
        case Take(next) =>
          var j := next.consumed - p.consumed;
          TakeIsOpen(words, p);
          ReadsTheStretch(words[j..], next);
          assert words[j..][k - j..] == words[k..];
        case Stop =>
          StopClosesStretch(words, p);
          FinishIs(p);
          assert words[0..] == words;
        case Overflow =>
      }
    }
  }

  lemma {:induction false} EmptyStretch()
    ensures Stretches([], true) == Stretches([], false) == 0
  {
  }

  lemma {:induction false} FinishIs(p: Parser)
    ensures Finish(p).Some? ==> Finish(p).value.1 == p.consumed
    ensures !p.sawNumber ==> Finish(p) == None
  {
  }

  lemma {:induction false} SkipIsConjunction(words: seq<Word>, p: Parser)
    requires words != [] && Turn(words, p).Skip?
    ensures p.sawNumber && words[0].Conjunction?
    ensures forall open :: Stretches(words, open) == Stretches(words[1..], open)
  {
    hide CheckedMul, CheckedAdd;
  }

  lemma {:induction false} TakeIsOpen(words: seq<Word>, p: Parser)
    requires words != [] && Turn(words, p).Take?
    ensures var j := Turn(words, p).next.consumed - p.consumed;
            Stretches(words, true) == Stretches(words[j..], true)
    ensures Stretches(words, false) == 1 + Stretches(words, true)
  {
    hide CheckedMul, CheckedAdd;
    if Turn(words, p).next.consumed - p.consumed == 2 {
      assert words[1] == Vingt && words[1..][1..] == words[2..];
    }
  }

  lemma {:induction false} StopClosesStretch(words: seq<Word>, p: Parser)
    requires words != [] && Turn(words, p).Stop? && p.sawNumber
    ensures Stretches(words, true) == Stretches(words, false)
  {
    hide CheckedMul, CheckedAdd;
    OpenSavesOne(words);
  }

  lemma {:induction false} StartStops(words: seq<Word>)
    requires words != []
    ensures words[0].Conjunction? || Stops(words[0]) ==> Turn(words, START).Stop? && ParseFrom(words, START) == None
    ensures Turn(words, START).Stop? ==> words[0].Conjunction? || Stops(words[0])
  {
    hide CheckedMul, CheckedAdd;
  }

  /** Words a number does not go on in are all that the parser can skip, and skipping them changes nothing. */
  lemma {:induction false} NothingGoesOn(words: seq<Word>, p: Parser)
    requires !GoesOn(words)
    ensures SameNumber(words, p, Finish(p))
    decreases |words|
  {
    hide *;
    if words == [] {
      SameAtEnd(p);
    } else {
      ParseUnfold(words, p);
      NotOn(words, p);
      if Turn(words, p).Skip? {
        var next := p.(consumed := p.consumed + 1);
        NothingGoesOn(words[1..], next);
        SameMoves(words, p, 1, next, Finish(next));
        SameBehindConjunction(words, p);
      } else {
        SameIfEqual(words, p);
      }
    }
  }

  /** The parser answers `r` or, with the same value, uses more conjunctions than `r` does. */
  ghost predicate SameNumber(words: seq<Word>, p: Parser, r: Option<(nat, nat)>) {
    match (ParseFrom(words, p), r)
    case (None, None) => true
    case (Some((v, k)), Some((w, l))) =>
      && v == w && p.consumed <= l <= k
      && forall i :: l - p.consumed <= i < k - p.consumed ==> words[i].Conjunction?
    case _ => false
  }

  lemma {:induction false} SameAtEnd(p: Parser)
    ensures SameNumber([], p, Finish(p))
  {
  }

  lemma {:induction false} NotOn(words: seq<Word>, p: Parser)
    requires words != [] && !GoesOn(words)
    ensures Turn(words, p).Stop? || (Turn(words, p).Skip? && words[0].Conjunction? && !GoesOn(words[1..]))
  {
    hide CheckedMul, CheckedAdd;
  }

  lemma {:induction false} SameIfEqual(words: seq<Word>, p: Parser)
    ensures SameNumber(words, p, ParseFrom(words, p))
  {
    hide ParseFrom;
  }

  lemma {:induction false} SameMoves(words: seq<Word>, p: Parser, k: nat, next: Parser, r: Option<(nat, nat)>)
    requires k <= |words| && next.consumed == p.consumed + k && SameNumber(words[k..], next, r)
    requires ParseFrom(words, p) == ParseFrom(words[k..], next)
    ensures SameNumber(words, p, r)
  {
    hide ParseFrom;
    if ParseFrom(words, p).Some? {
      forall i | r.value.1 - p.consumed <= i < ParseFrom(words, p).value.1 - p.consumed
        ensures words[i].Conjunction?
      {
        assert words[i] == words[k..][i - k];
      }
    }
  }

  lemma {:induction false} SameBehindConjunction(words: seq<Word>, p: Parser)
    requires words != [] && words[0].Conjunction? && SameNumber(words, p, Finish(p.(consumed := p.consumed + 1)))
    ensures SameNumber(words, p, Finish(p))
  {
    hide ParseFrom, CheckedAdd;
  }

  lemma {:induction false} TurnBefore(words: seq<Word>, rest: seq<Word>, p: Parser)
    requires words != [] && !GoesOn(rest)
    ensures
      || Turn(words + rest, p) == Turn(words, p)
      || (|words| == 1 && words[0].Conjunction? && Turn(words, p) == Stop && Turn(words + rest, p) == Skip)
  {
    var all := words + rest;
    assert all[0] == words[0];
    assert |words| > 1 ==> all[1] == words[1];
    assert |words| == 1 && rest != [] ==> all[1] == rest[0];
    hide CheckedMul, CheckedAdd;
  }

  /** Words a number does not go on in change no number before them. */
  lemma {:induction false} ParseBefore(words: seq<Word>, rest: seq<Word>, p: Parser)
    requires !GoesOn(rest)
    ensures SameNumber(words + rest, p, ParseFrom(words, p))
    decreases |words|
  {
    hide *;
    var all := words + rest;
    if words == [] {
      assert all == rest;
      NothingGoesOn(rest, p);
      ParseEnd(p);
    } else {
      TurnBefore(words, rest, p);
      ParseUnfold(words, p);
      ParseUnfold(all, p);
      if Turn(all, p) != Turn(words, p) {
        var next := p.(consumed := p.consumed + 1);
        assert all[1..] == rest;
        NothingGoesOn(rest, next);
        SameMoves(all, p, 1, next, Finish(next));
        SameBehindConjunction(all, p);
      } else {
        match Turn(words, p)
        case Skip =>
          var next := p.(consumed := p.consumed + 1);
          assert all[1..] == words[1..] + rest;
          ParseBefore(words[1..], rest, next);
          SameMoves(all, p, 1, next, ParseFrom(words, p));
        case Take(next) =>
          var k := next.consumed - p.consumed;
          assert all[k..] == words[k..] + rest;
          ParseBefore(words[k..], rest, next);
          SameMoves(all, p, k, next, ParseFrom(words, p));
        case _ => SameIfEqual(all, p);
      }
    }
  }

  // What closes a number

  predicate HasStop(words: seq<Word>) {
    words != [] && (Stops(words[0]) || HasStop(words[1..]))
  }

  lemma {:induction false} NoStopStaysOpen(words: seq<Word>)
    requires !HasStop(words)
    ensures EndsOpen(words, true)
  {
    if words != [] {
      NoStopStaysOpen(words[1..]);
    }
  }

  lemma {:induction false} ClosedHasStop(words: seq<Word>)
    requires words != [] && !EndsOpen(words, false)
    ensures words[0].Conjunction? || HasStop(words)
  {
    if !HasStop(words) {
      NoStopStaysOpen(words[1..]);
    }
  }

  lemma {:induction false} TurnInside(words: seq<Word>, rest: seq<Word>, p: Parser)
    requires HasStop(words)
    ensures Turn(words + rest, p) == Turn(words, p)
    ensures Turn(words, p).Skip? ==> HasStop(words[1..])
    ensures Turn(words, p).Take? ==> HasStop(words[Turn(words, p).next.consumed - p.consumed..])
  {
    var all := words + rest;
    assert all[0] == words[0];
    assert |words| > 1 ==> all[1] == words[1];
    hide CheckedMul, CheckedAdd;
    if |words| > 1 {
      assert words[2..] == words[1..][1..];
    }
  }

  /** Behind a word that stops, nothing reaches a number. */
  lemma {:induction false} ParseInside(words: seq<Word>, rest: seq<Word>, p: Parser)
    requires HasStop(words)
    ensures ParseFrom(words + rest, p) == ParseFrom(words, p)
    decreases |words|
  {
    hide *;
    var all := words + rest;
    StopIsThere(words);
    TurnInside(words, rest, p);
    ParseUnfold(words, p);
    ParseUnfold(all, p);
    match Turn(words, p) {
      case Skip =>
        assert all[1..] == words[1..] + rest;
        ParseInside(words[1..], rest, p.(consumed := p.consumed + 1));
      case Take(next) =>
        var k := next.consumed - p.consumed;
        assert all[k..] == words[k..] + rest;
        ParseInside(words[k..], rest, next);
      case _ =>
    }
  }

  lemma {:induction false} StopIsThere(words: seq<Word>)
    ensures HasStop(words) ==> words != []
  {
  }

  // The values of the words

  lemma {:induction false} WordValuesUnfold(tokens: seq<string>)
    requires tokens != []
    ensures WordValues(tokens) ==
            if HasDigit(tokens[0]) || ParseTokens(tokens) == None then WordValues(tokens[1..])
            else [Show(ParseTokens(tokens).value.0)] + WordValues(tokens[ParseTokens(tokens).value.1..])
  {
    hide ParseTokens, Show, HasDigit;
  }

  lemma {:induction false} NoWordValues()
    ensures WordValues([]) == []
  {
  }

  lemma {:induction false} LexIs(tokens: seq<string>, k: nat)
    requires k <= |tokens|
    ensures |LexAll(tokens)| == |tokens| && LexAll(tokens[k..]) == LexAll(tokens)[k..]
    ensures k < |tokens| ==> LexAll(tokens)[k] == Lex(tokens[k])
  {
    hide Lex;
  }

  lemma {:induction false} DigitsAreNumeric(token: string)
    ensures HasDigit(token) ==> Lex(token) == Numeric
  {
    hide HasDigit;
  }

  lemma {:induction false} ParseTokensIs(tokens: seq<string>)
    ensures ParseTokens(tokens) == ParseFrom(LexAll(tokens), START)
  {
  }

  /** Conjunctions that begin no number have no value. */
  lemma {:induction false} ConjunctionsAreSkipped(tokens: seq<string>, i: nat, j: nat)
    requires i <= j <= |tokens| && forall k :: i <= k < j ==> LexAll(tokens)[k].Conjunction?
    ensures WordValues(tokens[i..]) == WordValues(tokens[j..])
    decreases j - i
  {
    hide *;
    if i < j {
      var rest := tokens[i..];
      LexIs(tokens, i);
      LexIs(rest, 0);
      assert LexAll(rest)[0].Conjunction?;
      StartStops(LexAll(rest));
      ParseTokensIs(rest);
      WordValuesUnfold(rest);
      assert rest[1..] == tokens[i + 1..];
      ConjunctionsAreSkipped(tokens, i + 1, j);
    }
  }

  /** A number is open at the end of `tokens`, and `rest` goes on with it. */
  predicate JoinsNumber(tokens: seq<string>, rest: seq<string>) {
    EndsOpen(LexAll(tokens), false) && GoesOn(LexAll(rest))
  }

  lemma {:induction false} ParsedAlike(tokens: seq<string>, rest: seq<string>)
    requires tokens != [] && !JoinsNumber(tokens, rest)
    ensures SameNumber(LexAll(tokens + rest), START, ParseTokens(tokens))
  {
    MapConcat(Lex, tokens, rest);
    LexIs(tokens, 0);
    var words, after := LexAll(tokens), LexAll(rest);
    assert LexAll(tokens + rest) == words + after;
    hide ParseFrom, Lex, LexAll, HasStop, EndsOpen, GoesOn, SameNumber;
    if !GoesOn(after) {
      ParseBefore(words, after, START);
    } else {
      ClosedHasStop(words);
      if HasStop(words) {
        ParseInside(words, after, START);
      } else {
        StartStops(words);
        StartStops(words + after);
      }
      SameIfEqual(words + after, START);
    }
  }

  lemma {:induction false} SuffixJoins(tokens: seq<string>, rest: seq<string>, k: nat)
    requires !JoinsNumber(tokens, rest) && k <= |tokens|
    ensures !JoinsNumber(tokens[k..], rest)
  {
    LexIs(tokens, k);
    hide LexAll, EndsOpen, GoesOn;
    if !EndsOpen(LexAll(tokens), false) {
      SuffixIsClosed(LexAll(tokens), k);
    }
  }

  lemma {:induction false} WordsApart(tokens: seq<string>, rest: seq<string>)
    requires !JoinsNumber(tokens, rest)
    ensures WordValues(tokens + rest) == WordValues(tokens) + WordValues(rest)
    decreases |tokens|
  {
    hide *;
    var all := tokens + rest;
    if tokens == [] {
      assert all == rest;
      NoWordValues();
    } else {
      ParsedAlike(tokens, rest);
      WordValuesUnfold(tokens);
      WordValuesUnfold(all);
      SameMeans(all, ParseTokens(tokens));
      assert all[0] == tokens[0] && all[1..] == tokens[1..] + rest;
      if HasDigit(tokens[0]) || ParseTokens(tokens) == None {
        SuffixJoins(tokens, rest, 1);
        WordsApart(tokens[1..], rest);
      } else {
        var (value, k) := ParseTokens(tokens).value;
        assert all[k..] == tokens[k..] + rest;
        SuffixJoins(tokens, rest, k);
        WordsApart(tokens[k..], rest);
        ConjunctionsAreSkipped(all, k, ParseTokens(all).value.1);
        Sequences.Regroup([Show(value)], WordValues(tokens[k..]), WordValues(rest));
      }
    }
  }

  lemma {:induction false} SameMeans(tokens: seq<string>, r: Option<(nat, nat)>)
    requires SameNumber(LexAll(tokens), START, r)
    ensures ParseTokens(tokens).Some? == r.Some?
    ensures r.Some? ==> ParseTokens(tokens).value.0 == r.value.0 && r.value.1 <= ParseTokens(tokens).value.1
    ensures r.Some? ==> forall j :: r.value.1 <= j < ParseTokens(tokens).value.1 ==> LexAll(tokens)[j].Conjunction?
  {
    hide ParseFrom, LexAll;
  }

  // One value for each stretch of number words

  ghost predicate Small(w: Word) {
    match w
    case Times(factor) => factor <= 1_000_000_000_000
    case Scale(factor) => factor <= 1_000_000_000_000
    case Atom(value) => value <= 1_000_000_000_000
    case _ => true
  }

  lemma {:induction false} LexedIsSmall(token: string)
    ensures Small(Lex(token))
  {
    hide HasDigit;
  }

  lemma {:induction false} FirstIsTaken(words: seq<Word>)
    requires words != [] && !words[0].Conjunction? && !Stops(words[0]) && Small(words[0]) && !GoesOn(words[1..])
    ensures var m := Turn(words, START);
            m.Take? && m.next.consumed == 1 && Finish(m.next).Some?
  {
    if |words| > 1 {
      assert words[1] == words[1..][0];
    }
  }

  /** A number word that nothing goes on with is a number. */
  lemma {:induction false} LastIsRead(words: seq<Word>)
    requires words != [] && !words[0].Conjunction? && !Stops(words[0]) && Small(words[0]) && !GoesOn(words[1..])
    ensures ParseFrom(words, START).Some?
  {
    hide *;
    FirstIsTaken(words);
    ParseUnfold(words, START);
    var next := Turn(words, START).next;
    assert words[next.consumed - START.consumed..] == words[1..];
    NothingGoesOn(words[1..], next);
    SameIsSome(words[1..], next, Finish(next));
  }

  lemma {:induction false} SameIsSome(words: seq<Word>, p: Parser, r: Option<(nat, nat)>)
    requires SameNumber(words, p, r)
    ensures ParseFrom(words, p).Some? == r.Some?
  {
    hide ParseFrom;
  }

  lemma {:induction false} FirstStretch(words: seq<Word>)
    requires words != []
    ensures words[0].Conjunction? || Stops(words[0]) ==> Stretches(words, false) == Stretches(words[1..], false)
    ensures !(words[0].Conjunction? || Stops(words[0])) ==> Stretches(words, false) == 1 + Stretches(words[1..], true)
  {
  }

  /** What is read takes exactly one stretch of number words with it; what is skipped takes none. */
  lemma {:induction false} OneStretch(words: seq<Word>)
    requires words != [] && Small(words[0])
    ensures match ParseFrom(words, START)
            case Some((value, k)) => Stretches(words, false) == 1 + Stretches(words[k..], false)
            case None => Stretches(words, false) == Stretches(words[1..], false)
  {
    hide *;
    FirstStretch(words);
    StartStops(words);
    match ParseFrom(words, START)
    case None =>
      OpenSavesOne(words[1..]);
      if !(words[0].Conjunction? || Stops(words[0]) || GoesOn(words[1..])) {
        LastIsRead(words);
      }
    case Some((value, k)) =>
      ParseUnfold(words, START);
      StartTakes(words);
      var next := Turn(words, START).next;
      var j := next.consumed;
      TakeIsOpen(words, START);
      ReadsTheStretch(words[j..], next);
      assert words[j..][k - j..] == words[k..];
  }

  lemma {:induction false} StartTakes(words: seq<Word>)
    requires words != [] && ParseFrom(words, START).Some?
    ensures Turn(words, START).Take? && START.consumed == 0
  {
    ParseUnfold(words, START);
    hide ParseFrom, Turn;
  }

  /** The words of a text have one value for each stretch of number words. */
  lemma {:induction false} OneValueEach(tokens: seq<string>)
    ensures |WordValues(tokens)| == Stretches(LexAll(tokens), false)
    decreases |tokens|
  {
    hide *;
    if tokens == [] {
      NoWordValues();
      EmptyStretch();
      LexIs(tokens, 0);
      assert LexAll(tokens) == [];
    } else {
      var words := LexAll(tokens);
      WordValuesUnfold(tokens);
      ParseTokensIs(tokens);
      LexIs(tokens, 0);
      LexIs(tokens, 1);
      LexedIsSmall(tokens[0]);
      OneStretch(words);
      if HasDigit(tokens[0]) {
        DigitsAreNumeric(tokens[0]);
        NumericStops(words);
        FirstStretch(words);
        OneValueEach(tokens[1..]);
      } else if ParseTokens(tokens) == None {
        OneValueEach(tokens[1..]);
      } else {
        var k := ParseTokens(tokens).value.1;
        LexIs(tokens, k);
        OneValueEach(tokens[k..]);
      }
    }
  }

  lemma {:induction false} NumericStops(words: seq<Word>)
    ensures words != [] && words[0] == Numeric ==> Stops(words[0])
  {
  }

  /** The values of the number words of two texts stay apart exactly when no number is open at the end of the first
      that the second goes on with. */
  lemma {:induction false} WordsStay(tokens: seq<string>, rest: seq<string>)
    ensures WordValues(tokens + rest) == WordValues(tokens) + WordValues(rest) <==> !JoinsNumber(tokens, rest)
  {
    var words, after := LexAll(tokens), LexAll(rest);
    MapConcat(Lex, tokens, rest);
    assert LexAll(tokens + rest) == words + after;
    hide Lex, LexAll, WordValues, EndsOpen, GoesOn, Stretches;
    if JoinsNumber(tokens, rest) {
      StretchesJoin(words, after, false);
      OpenSavesOne(after);
      OneValueEach(tokens);
      OneValueEach(rest);
      OneValueEach(tokens + rest);
    } else {
      WordsApart(tokens, rest);
    }
  }
}
