/** When more evidence keeps a claim supported: the test of `llm/citations.rs` on a text and on what is appended
    to it. */
module Evidence {
  import opened Wrappers
  import opened Decimal
  import opened Sequences
  import opened Text
  import opened NumeralScan
  import opened Vocabulary
  import opened NumberWords
  import opened Claims
  import opened Seams

  // --------------------------------------------------------------------------------------------
  // Support
  // --------------------------------------------------------------------------------------------

  lemma {:induction false} TokensJoin(u: Unicode, text: string, c: char, more: string)
    requires !u.alphanumeric(c)
    ensures Tokens(u, text + [c] + more) == Tokens(u, text) + Tokens(u, more)
  {
    var sep := x => !u.alphanumeric(x);
    SplitJoined(text, c, more, sep);
    NonEmptyConcat(SplitOn(text, sep), SplitOn(more, sep));
    MapConcat(u.lowercase, Pieces(u, text), Pieces(u, more));
  }

  lemma {:induction false} FilterGrows(tokens: seq<string>, found: seq<string>, more: seq<string>)
    requires forall t :: t in found ==> t in more
    ensures |Filter(tokens, t => t in found)| <= |Filter(tokens, t => t in more)|
  {
    if tokens != [] {
      FilterGrows(tokens[1..], found, more);
    }
  }

  lemma {:induction false} MeaningStays(u: Unicode, text: string, c: char, more: string)
    requires !u.alphanumeric(c)
    ensures forall t :: t in MeaningfulTokens(u, text) ==> t in MeaningfulTokens(u, text + [c] + more)
  {
    TokensJoin(u, text, c, more);
    hide Tokens, IsMeaningful;
  }

  lemma {:induction false} SupportCarries(u: Unicode, claim: string, evidence: string, larger: string)
    requires forall v :: v in NumericValues(u, evidence) ==> v in NumericValues(u, larger)
    requires forall t :: t in MeaningfulTokens(u, evidence) ==> t in MeaningfulTokens(u, larger)
    ensures IsSupported(u, claim, evidence) ==> IsSupported(u, claim, larger)
  {
    FilterGrows(MeaningfulTokens(u, claim), MeaningfulTokens(u, evidence), MeaningfulTokens(u, larger));
    hide NumericValues, MeaningfulTokens, Filter, Required;
  }

  lemma {:induction false} FilterNone(tokens: seq<string>, keep: string -> bool)
    requires forall t :: t in tokens ==> !keep(t)
    ensures Filter(tokens, keep) == []
  {
    if tokens != [] {
      FilterNone(tokens[1..], keep);
    }
  }

  lemma {:induction false} NothingSupports(u: Unicode, claim: string, evidence: string)
    requires MeaningfulTokens(u, evidence) == []
    ensures !IsSupported(u, claim, evidence)
  {
    var found := MeaningfulTokens(u, evidence);
    FilterNone(MeaningfulTokens(u, claim), t => t in found);
    hide NumericValues, MeaningfulTokens, Filter;
  }

  /** More evidence keeps every claim supported exactly when the evidence supports none, for want of a content word,
      or all its numbers are still read. */
  lemma {:induction false} SupportGrowsExactly(u: Unicode, evidence: string, c: char, more: string)
    requires !u.alphanumeric(c)
    ensures (forall claim :: IsSupported(u, claim, evidence) ==> IsSupported(u, claim, evidence + [c] + more))
       <==> MeaningfulTokens(u, evidence) == []
            || forall v :: v in NumericValues(u, evidence) ==> v in NumericValues(u, evidence + [c] + more)
  {
    var larger := evidence + [c] + more;
    hide *;
    MeaningStays(u, evidence, c, more);
    SelfSupport(u, evidence);
    SupportNeedsNumbers(u, evidence, larger);
    forall claim
      ensures MeaningfulTokens(u, evidence) == [] ==> !IsSupported(u, claim, evidence)
      ensures (forall v :: v in NumericValues(u, evidence) ==> v in NumericValues(u, larger)) ==>
                IsSupported(u, claim, evidence) ==> IsSupported(u, claim, larger)
    {
      if MeaningfulTokens(u, evidence) == [] {
        NothingSupports(u, claim, evidence);
      }
      if forall v :: v in NumericValues(u, evidence) ==> v in NumericValues(u, larger) {
        SupportCarries(u, claim, evidence, larger);
      }
    }
  }

  lemma {:induction false} SupportNeedsNumbers(u: Unicode, claim: string, evidence: string)
    ensures IsSupported(u, claim, evidence) ==>
              forall v :: v in NumericValues(u, claim) ==> v in NumericValues(u, evidence)
  {
    hide NumericValues, MeaningfulTokens, Filter, Required;
  }

  /** The appended text goes on with no numeral and with no number in words. */
  predicate JoinsNothing(u: Unicode, evidence: string, c: char, more: string) {
    && !u.alphanumeric(c) && !IsDigit(c)
    && !JoinsNumeral(evidence, c, more) && !JoinsNumber(Tokens(u, evidence), Tokens(u, more))
  }

  lemma {:induction false} NumbersStay(u: Unicode, text: string, c: char, more: string)
    requires JoinsNothing(u, text, c, more)
    ensures forall v :: v in NumericValues(u, text) ==> v in NumericValues(u, text + [c] + more)
  {
    LiteralsStay(text, c, more);
    TokensJoin(u, text, c, more);
    WordsStay(Tokens(u, text), Tokens(u, more));
    hide LiteralValues, WordValues, Tokens, JoinsNumeral, JoinsNumber;
    PrefixKeeps(LiteralValues(text), LiteralValues(text + [c] + more));
  }

  lemma {:induction false} PrefixKeeps<T>(a: seq<T>, b: seq<T>)
    ensures a <= b ==> forall x :: x in a ==> x in b
  {
    assert forall i :: a <= b && 0 <= i < |a| ==> a[i] == b[i];
  }

  /** More evidence keeps every claim supported when it joins no number that is open where it starts. */
  lemma {:induction false} SupportGrows(u: Unicode, claim: string, evidence: string, c: char, more: string)
    requires JoinsNothing(u, evidence, c, more) && IsSupported(u, claim, evidence)
    ensures IsSupported(u, claim, evidence + [c] + more)
  {
    NumbersStay(u, evidence, c, more);
    SupportGrowsExactly(u, evidence, c, more);
    hide NumericValues, MeaningfulTokens, IsSupported;
  }

  // --------------------------------------------------------------------------------------------
  // More evidence that takes support away
  // --------------------------------------------------------------------------------------------

  /** A content word of lower-case ASCII letters. */
  ghost predicate ContentWord(word: string) {
    LowerAscii(word) && NoDigits(word) && IsMeaningful(word)
  }

  lemma {:induction false} NotNumber(word: string, rest: seq<string>)
    requires Lex(word).Other?
    ensures !HasDigit(word) && ParseTokens([word] + rest) == None
  {
    var words := LexAll([word] + rest);
    assert words[0] == Lex(word);
    assert Turn(words, START) == Stop;
  }

  lemma {:induction false} NumberAfterWord(u: Unicode, word: string, n: nat)
    requires u.ExtendsAscii() && ContentWord(word) && n < Pow1000(5)
    ensures var words := [word] + EnglishSpelling(n, false);
            var text := Interleave(words, Spaces(|words| - 1));
            && Tokens(u, text) == words && NumericValues(u, text) == [Show(n)] && MeaningfulTokens(u, text) != []
  {
    var spelling := EnglishSpelling(n, false);
    var words := [word] + spelling;
    var gaps := Spaces(|words| - 1);
    SpellingIsAscii(n, false);
    SpacesAreGaps(u, |words| - 1);
    var text := Interleave(words, gaps);
    hide EnglishSpelling;
    TokensOfWords(u, words, gaps);
    InterleavedHasNoDigits(u, words, gaps);
    NoDigitsNoRuns(text, 0, "");
    NotNumber(word, spelling);
    SpellingValues(n);
    assert words[1..] == spelling;
    assert word in words;
    hide Tokens, ParseTokens, Runs, IsMeaningful;
    assert LiteralValues(text) == [];
  }

  function Spaces(n: nat): (gaps: seq<string>)
    ensures |gaps| == n
  {
    if n == 0 then [] else [" "] + Spaces(n - 1)
  }

  lemma {:induction false} SpacesAreGaps(u: Unicode, n: nat)
    requires u.ExtendsAscii()
    ensures AreGaps(u, Spaces(n))
  {
    assert !u.alphanumeric(' ');
    if n > 0 {
      SpacesAreGaps(u, n - 1);
    }
  }

  lemma {:induction false} SpellingValues(n: nat)
    requires n < Pow1000(5)
    ensures WordValues(EnglishSpelling(n, false)) == [Show(n)]
  {
    var words := EnglishSpelling(n, false);
    SpellingIsAscii(n, false);
    EnglishRoundTrip(n, false, []);
    assert words + [] == words;
    assert !HasDigit(words[0]);
    hide ParseTokens, EnglishCardinal;
    assert words[|words|..] == [];
  }

  lemma {:induction false} SpellTwo()
    ensures EnglishSpelling(2, false) == ["two"] && EnglishSpelling(200, false) == ["two", "hundred"]
  {
    assert EnglishBelow1000(2, false) == [One(2)];
    assert EnglishBelow1000(200, false) == [One(2), Hundred];
  }

  lemma {:induction false} TwoTexts(word: string)
    ensures Interleave([word] + ["two"], Spaces(1)) == word + " two"
    ensures Interleave([word] + ["two", "hundred"], Spaces(2)) == word + " two" + [' '] + "hundred"
  {
    assert ([word] + ["two"])[1..] == ["two"];
    assert ([word] + ["two", "hundred"])[1..] == ["two", "hundred"] && ["two", "hundred"][1..] == ["hundred"];
    assert Spaces(1)[1..] == [] && Spaces(2)[1..] == Spaces(1);
    assert Interleave(["two"], []) == "two" && Interleave(["hundred"], []) == "hundred";
    assert Interleave(["two", "hundred"], Spaces(1)) == "two" + " " + "hundred";
  }

  lemma {:induction false} MissingNumber(u: Unicode, claim: string, evidence: string, m: nat, n: nat)
    requires NumericValues(u, claim) == [Show(m)] && NumericValues(u, evidence) == [Show(n)] && m != n
    ensures !IsSupported(u, claim, evidence)
  {
    assert Show(m) in NumericValues(u, claim);
    assert Show(m) != Show(n);
    hide NumericValues, MeaningfulTokens, Show;
  }

  /** A word after the evidence can change its number: for every content word, "word two" supports itself, and
      "word two hundred" does not support it. */
  lemma {:induction false} MoreCanTakeAway(u: Unicode, word: string)
    requires u.ExtendsAscii() && ContentWord(word)
    ensures var evidence := word + " two";
            IsSupported(u, evidence, evidence) && !IsSupported(u, evidence, evidence + [' '] + "hundred")
  {
    hide *;
    SpellTwo();
    TwoTexts(word);
    SmallPowers();
    NumberAfterWord(u, word, 2);
    NumberAfterWord(u, word, 200);
    SelfSupport(u, word + " two");
    MissingNumber(u, word + " two", word + " two" + [' '] + "hundred", 2, 200);
  }

  lemma {:induction false} SmallPowers()
    ensures Pow1000(5) > 200
  {
  }
}
