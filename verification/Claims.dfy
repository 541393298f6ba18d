/** The claim-support test of `llm/citations.rs`: the claim in front of a marker, the numbers and the
    content words of two texts, and when one text supports the other. */
module Claims {
  import opened Wrappers
  import opened Decimal
  import opened Sequences
  import opened Text
  import opened Utf8
  import Numerals
  import opened NumeralScan
  import opened Vocabulary
  import opened NumberWords

  /** The Unicode tables of the standard library and of the regex engine, as parameters. */
  datatype Unicode = Unicode(alphanumeric: char -> bool, decimalDigit: char -> bool, lowercase: string -> string) {
    /** What the tables say about ASCII, and all that is assumed of them. */
    ghost predicate ExtendsAscii() {
      && (forall c: char :: c as int < 0x80 ==> alphanumeric(c) == (IsDigit(c) || 'a' <= c <= 'z' || 'A' <= c <= 'Z'))
      && (forall c: char :: c as int < 0x80 ==> decimalDigit(c) == IsDigit(c))
      && (forall s: string :: LowerAscii(s) ==> lowercase(s) == s)
    }
  }

  /** ASCII digits and lower-case letters only. */
  predicate LowerAscii(s: string) {
    forall i :: 0 <= i < |s| ==> IsDigit(s[i]) || 'a' <= s[i] <= 'z'
  }

  // --------------------------------------------------------------------------------------------
  // The numbers of a text
  // --------------------------------------------------------------------------------------------

  /** The maximal alphanumeric pieces of the text, in lower case. */
  function Tokens(u: Unicode, text: string): seq<string> {
    Map(u.lowercase, Pieces(u, text))
  }

  function Pieces(u: Unicode, text: string): seq<string> {
    NonEmpty(SplitOn(text, c => !u.alphanumeric(c)))
  }

  /** The values of the number words among the tokens. */
  function WordValues(tokens: seq<string>): seq<string> {
    if tokens == [] then []
    else if HasDigit(tokens[0]) then WordValues(tokens[1..])
    else match ParseTokens(tokens)
         case Some((value, consumed)) => [Show(value)] + WordValues(tokens[consumed..])
         case None => WordValues(tokens[1..])
  }

  function NumericValues(u: Unicode, text: string): seq<string> {
    LiteralValues(text) + WordValues(Tokens(u, text))
  }

  method CollectNumericValues(u: Unicode, text: string) returns (values: seq<string>)
    ensures values == NumericValues(u, text)
  {
    hide *;
    values := NumericLiteralValues(text);
    var tokens := Tokens(u, text);
    var index := 0;
    NothingCollected(u, text);
    while index < |tokens|
      invariant 0 <= index <= |tokens|
      invariant Collecting(u, text, index, values)
    {
      CollectOne(u, text, index, values);
      if HasDigit(tokens[index]) {
        index := index + 1;
      } else {
        var parsed := ParseWordNumber(tokens[index..]);
        if parsed.Some? {
          values := values + [Show(parsed.value.0)];
          index := index + parsed.value.1;
        } else {
          index := index + 1;
        }
      }
    }
    AllCollected(u, text, values);
  }

  /** The values so far and those of the tokens still to read make up the answer. */
  ghost predicate Collecting(u: Unicode, text: string, index: nat, values: seq<string>) {
    index <= |Tokens(u, text)| && values + WordValues(Tokens(u, text)[index..]) == NumericValues(u, text)
  }

  lemma {:induction false} NothingCollected(u: Unicode, text: string)
    ensures Collecting(u, text, 0, LiteralValues(text))
  {
    hide LiteralValues, WordValues, Tokens;
    assert Tokens(u, text)[0..] == Tokens(u, text);
  }

  lemma {:induction false} CollectOne(u: Unicode, text: string, index: nat, values: seq<string>)
    requires Collecting(u, text, index, values) && index < |Tokens(u, text)|
    ensures var tokens := Tokens(u, text);
            var parsed := ParseTokens(tokens[index..]);
            if HasDigit(tokens[index]) || parsed.None? then Collecting(u, text, index + 1, values)
            else Collecting(u, text, index + parsed.value.1, values + [Show(parsed.value.0)])
  {
    hide Tokens, WordValues, NumericValues, ParseTokens, Show, HasDigit;
    var tokens := Tokens(u, text);
    WordValuesAt(tokens, index);
    var parsed := ParseTokens(tokens[index..]);
    if parsed.Some? {
      Reassociate(values, Show(parsed.value.0), WordValues(tokens[index + parsed.value.1..]));
    }
  }

  lemma {:induction false} AllCollected(u: Unicode, text: string, values: seq<string>)
    requires Collecting(u, text, |Tokens(u, text)|, values)
    ensures values == NumericValues(u, text)
  {
    hide Tokens, NumericValues;
    assert Tokens(u, text)[|Tokens(u, text)|..] == [];
    assert values + [] == values;
  }

  lemma {:induction false} WordValuesAt(tokens: seq<string>, index: nat)
    requires index < |tokens|
    ensures var rest := tokens[index..];
            WordValues(rest)
            == if HasDigit(tokens[index]) || ParseTokens(rest) == None then WordValues(tokens[index + 1..])
               else [Show(ParseTokens(rest).value.0)] + WordValues(tokens[index + ParseTokens(rest).value.1..])
  {
    hide ParseTokens;
    var rest := tokens[index..];
    assert rest[1..] == tokens[index + 1..];
    if ParseTokens(rest).Some? {
      var k := ParseTokens(rest).value.1;
      assert rest[k..] == tokens[index + k..];
    }
  }

  /** Words written one after the other with something between them: spaces, hyphens, punctuation. */
  function Interleave(words: seq<string>, gaps: seq<string>): string
    requires words != [] && |gaps| == |words| - 1
  {
    if gaps == [] then words[0] else words[0] + gaps[0] + Interleave(words[1..], gaps[1..])
  }

  ghost predicate AreGaps(u: Unicode, gaps: seq<string>) {
    forall i :: 0 <= i < |gaps| ==> gaps[i] != [] && forall k :: 0 <= k < |gaps[i]| ==> !u.alphanumeric(gaps[i][k])
  }

  ghost predicate AreWords(u: Unicode, words: seq<string>) {
    forall i :: 0 <= i < |words| ==> words[i] != [] && forall k :: 0 <= k < |words[i]| ==> u.alphanumeric(words[i][k])
  }

  lemma {:induction false} SkipGap(gap: string, rest: string, sep: char -> bool)
    requires forall k :: 0 <= k < |gap| ==> sep(gap[k])
    ensures NonEmpty(SplitOn(gap + rest, sep)) == NonEmpty(SplitOn(rest, sep))
  {
    if gap == [] {
      assert gap + rest == rest;
    } else {
      assert (gap + rest)[1..] == gap[1..] + rest;
      SkipGap(gap[1..], rest, sep);
      var tail := SplitOn(gap[1..] + rest, sep);
      assert ([""] + tail)[1..] == tail;
    }
  }

  lemma {:induction false} PiecesOfInterleaved(u: Unicode, words: seq<string>, gaps: seq<string>)
    requires words != [] && |gaps| == |words| - 1 && AreWords(u, words) && AreGaps(u, gaps)
    ensures Pieces(u, Interleave(words, gaps)) == words
  {
    var sep := c => !u.alphanumeric(c);
    var w := words[0];
    if gaps == [] {
      SplitPiece(w, sep);
      assert words == [w];
      NonEmptyAll([w]);
    } else {
      var g := gaps[0];
      var rest := Interleave(words[1..], gaps[1..]);
      PiecesOfInterleaved(u, words[1..], gaps[1..]);
      assert w + g + rest == w + [g[0]] + (g[1..] + rest);
      SplitAfterPiece(w, g[0], g[1..] + rest, sep);
      SkipGap(g[1..], rest, sep);
      var parts := SplitOn(g[1..] + rest, sep);
      assert ([w] + parts)[1..] == parts;
      assert words == [w] + words[1..];
    }
  }

  ghost predicate NoDigits(text: string) {
    forall i :: 0 <= i < |text| ==> !IsDigit(text[i])
  }

  lemma {:induction false} NoDigitsNoRuns(text: string, i: nat, run: string)
    requires i <= |text| && NoDigits(text) && NoDigits(run)
    ensures Runs(text, i, run) == []
    decreases |text| - i
  {
    if i < |text| {
      match Next(text, i, run)
      case Extend(longer) => NoDigitsNoRuns(text, i + 1, longer);
      case Flush => NoDigitsNoRuns(text, i + 1, "");
    }
  }

  lemma {:induction false} InterleavedHasNoDigits(u: Unicode, words: seq<string>, gaps: seq<string>)
    requires u.ExtendsAscii() && words != [] && |gaps| == |words| - 1 && AreGaps(u, gaps)
    requires forall i :: 0 <= i < |words| ==> NoDigits(words[i])
    ensures NoDigits(Interleave(words, gaps))
  {
    if gaps != [] {
      InterleavedHasNoDigits(u, words[1..], gaps[1..]);
      forall k | 0 <= k < |gaps[0]| ensures !IsDigit(gaps[0][k]) {
        assert !u.alphanumeric(gaps[0][k]);
      }
    }
  }

  /** Every English number word is made of lower-case ASCII letters. */
  lemma {:induction false} EnglishIsAscii(w: English)
    ensures var t := EnglishToken(w); t != [] && LowerAscii(t) && NoDigits(t)
  {
    match w
    case One(n) => EnglishOnesAscii(n);
    case Teen(n) => EnglishTeensAscii(n);
    case Ten(n) => EnglishTensAscii(n);
    case _ =>
  }

  lemma {:induction false} EnglishTensAscii(n: nat)
    requires 2 <= n <= 9
    ensures var t := ENGLISH_TENS[n - 2]; t != [] && LowerAscii(t) && NoDigits(t)
  {
  }

  lemma {:induction false} EnglishOnesAscii(n: nat)
    requires n < 10
    ensures var t := ENGLISH_ONES[n]; t != [] && LowerAscii(t) && NoDigits(t)
  {
  }

  lemma {:induction false} EnglishTeensAscii(n: nat)
    requires 10 <= n < 20
    ensures var t := ENGLISH_TEENS[n - 10]; t != [] && LowerAscii(t) && NoDigits(t)
  {
  }

  lemma {:induction false} TokensOfWords(u: Unicode, words: seq<string>, gaps: seq<string>)
    requires u.ExtendsAscii() && words != [] && |gaps| == |words| - 1 && AreGaps(u, gaps)
    requires forall i :: 0 <= i < |words| ==> words[i] != [] && LowerAscii(words[i])
    ensures Tokens(u, Interleave(words, gaps)) == words
  {
    forall i, k | 0 <= i < |words| && 0 <= k < |words[i]| ensures u.alphanumeric(words[i][k]) {
      assert LowerAscii(words[i]);
    }
    PiecesOfInterleaved(u, words, gaps);
    forall i | 0 <= i < |words| ensures Map(u.lowercase, words)[i] == words[i] {
    }
  }

  /** The words of the English cardinal of `n`. */
  function EnglishSpelling(n: nat, useAnd: bool): seq<string>
    requires n < Pow1000(5)
  {
    Map(EnglishToken, EnglishCardinal(n, useAnd))
  }

  lemma {:induction false} SpellingIsAscii(n: nat, useAnd: bool)
    requires n < Pow1000(5)
    ensures var words := EnglishSpelling(n, useAnd);
            && words != []
            && forall i :: 0 <= i < |words| ==> words[i] != [] && LowerAscii(words[i]) && NoDigits(words[i])
  {
    hide EnglishToken, EnglishCardinal, LowerAscii, NoDigits;
    var ws := EnglishCardinal(n, useAnd);
    forall i | 0 <= i < |ws|
      ensures EnglishSpelling(n, useAnd)[i] != [] && LowerAscii(EnglishSpelling(n, useAnd)[i])
              && NoDigits(EnglishSpelling(n, useAnd)[i])
    {
      EnglishIsAscii(ws[i]);
    }
    EnglishRoundTrip(n, useAnd, []);
  }

  /** A number spelled in English words and the same number written in digits have the same single
      value, whatever separates the words. */
  lemma {:induction false} SpelledEqualsWritten(u: Unicode, n: nat, useAnd: bool, gaps: seq<string>)
    requires u.ExtendsAscii() && n < Pow1000(5)
    requires |gaps| == |EnglishSpelling(n, useAnd)| - 1 && AreGaps(u, gaps)
    ensures NumericValues(u, Interleave(EnglishSpelling(n, useAnd), gaps)) == [Show(n)] == NumericValues(u, Show(n))
  {
    hide EnglishSpelling, ParseTokens;
    SpelledValues(u, n, useAnd, gaps);
    WrittenValues(u, n);
  }

  lemma {:induction false} SpelledValues(u: Unicode, n: nat, useAnd: bool, gaps: seq<string>)
    requires u.ExtendsAscii() && n < Pow1000(5)
    requires |gaps| == |EnglishSpelling(n, useAnd)| - 1 && AreGaps(u, gaps)
    ensures NumericValues(u, Interleave(EnglishSpelling(n, useAnd), gaps)) == [Show(n)]
  {
    hide ParseTokens, Tokens, EnglishCardinal;
    var words := EnglishSpelling(n, useAnd);
    SpellingIsAscii(n, useAnd);
    TokensOfWords(u, words, gaps);
    InterleavedHasNoDigits(u, words, gaps);
    NoDigitsNoRuns(Interleave(words, gaps), 0, "");
    EnglishRoundTrip(n, useAnd, []);
    assert words + [] == words;
    assert !HasDigit(words[0]);
    var text := Interleave(words, gaps);
    assert LiteralValues(text) == [];
    assert WordValues(words) == [Show(n)] + WordValues(words[|words|..]);
    assert WordValues(words[|words|..]) == [];
  }

  lemma {:induction false} WrittenValues(u: Unicode, n: nat)
    requires u.ExtendsAscii()
    ensures NumericValues(u, Show(n)) == [Show(n)]
  {
    hide ParseTokens, Tokens, Show;
    var digits := Show(n);
    KeyIsFixedPoint(Numerals.Amount(false, digits, ""));
    assert Numerals.Amount(false, digits, "").Key() == digits;
    assert Interleave([digits], []) == digits;
    TokensOfWords(u, [digits], []);
    assert IsDigit(digits[0]);
    assert LiteralValues(digits) == [digits];
    var tokens := Tokens(u, digits);
    assert HasDigit(tokens[0]) && tokens[1..] == [];
    assert WordValues(tokens) == WordValues(tokens[1..]) == [];
  }

  // --------------------------------------------------------------------------------------------
  // The claim in front of a marker
  // --------------------------------------------------------------------------------------------

  /** A sentence ends at `i`; a point between two digits is a decimal point. */
  predicate SentenceEnd(prefix: string, i: nat)
    requires i < |prefix|
  {
    var c := prefix[i];
    || c == '\n' || c == '!' || c == '?'
    || (c == '.' && !(i > 0 && i + 1 < |prefix| && IsDigit(prefix[i - 1]) && IsDigit(prefix[i + 1])))
  }

  /** Where the last sentence of `prefix[..n]` starts; boundaries are judged in the whole prefix. */
  function ClaimStart(prefix: string, n: nat): (start: nat)
    requires n <= |prefix|
    ensures start <= n && (start > 0 ==> SentenceEnd(prefix, start - 1))
    ensures forall i :: start <= i < n ==> !SentenceEnd(prefix, i)
  {
    if n == 0 || SentenceEnd(prefix, n - 1) then n else ClaimStart(prefix, n - 1)
  }

  function ImmediatelyPrecedingClaim(prefix: string): string {
    prefix[ClaimStart(prefix, |prefix|)..]
  }

  /** The claim is the longest end of the prefix with no sentence end in it. */
  lemma {:induction false} ClaimIsLastSentence(prefix: string, start: nat)
    requires start <= |prefix|
    ensures start == ClaimStart(prefix, |prefix|)
            <==> && (forall i :: start <= i < |prefix| ==> !SentenceEnd(prefix, i))
                 && (start == 0 || SentenceEnd(prefix, start - 1))
  {
    var s := ClaimStart(prefix, |prefix|);
    assert s > 0 ==> SentenceEnd(prefix, s - 1);
  }

  // --------------------------------------------------------------------------------------------
  // Support
  // --------------------------------------------------------------------------------------------

  const STOP_WORDS: set<string> :=
    {"a", "an", "and", "are", "as", "at", "be", "by", "for", "from", "in", "is", "it", "of", "on", "or", "that", "the",
     "this", "to", "was", "were", "with", "au", "aux", "ce", "ces", "dans", "de", "des", "du", "et", "est", "la", "le",
     "les", "par", "pour", "que", "qui", "sur", "une"}

  const POLARITY: set<string> := {"no", "not", "never", "without", "aucun", "jamais", "pas", "sans"}

  predicate IsMeaningful(token: string) {
    (Bytes(token) >= 2 || HasDigit(token)) && token !in STOP_WORDS && Lex(token).Other?
  }

  function Filter(tokens: seq<string>, keep: string -> bool): (kept: seq<string>)
    ensures |kept| <= |tokens|
    ensures forall t :: t in kept <==> t in tokens && keep(t)
  {
    if tokens == [] then []
    else if keep(tokens[0]) then [tokens[0]] + Filter(tokens[1..], keep)
    else Filter(tokens[1..], keep)
  }

  function MeaningfulTokens(u: Unicode, text: string): seq<string> {
    Filter(Tokens(u, text), IsMeaningful)
  }

  function TrimListSyntax(claim: string): string {
    if |claim| >= 2 && (claim[..2] == "- " || claim[..2] == "* ") then claim[2..] else claim
  }

  function TrimStartColons(s: string): string {
    if s != [] && (s[0] == ':' || s[0] == ';') then TrimStartColons(s[1..]) else s
  }

  /** The text that a marker after `prefix` vouches for. */
  function ClaimText(prefix: string): string {
    Trim(TrimStartColons(TrimListSyntax(Trim(ImmediatelyPrecedingClaim(prefix)))))
  }

  ghost predicate AllWhite(s: string) {
    forall i :: 0 <= i < |s| ==> IsWhitespace(s[i])
  }

  ghost predicate IsListItem(s: string) {
    |s| >= 2 && (s[0] == '-' || s[0] == '*') && s[1] == ' '
  }

  ghost predicate AllColons(s: string) {
    forall i :: 0 <= i < |s| ==> s[i] == ':' || s[i] == ';'
  }

  /** What a marker vouches for is the last sentence without a list mark, colons and semicolons in front of it, and
      white space around any of them. */
  lemma {:induction false} ClaimTextIs(prefix: string, start: nat, before: string, mark: string, colons: string,
                                       gap: string, claim: string, after: string)
    requires start <= |prefix| && (start == 0 || SentenceEnd(prefix, start - 1))
    requires forall i :: start <= i < |prefix| ==> !SentenceEnd(prefix, i)
    requires prefix[start..] == before + (mark + colons + gap + claim) + after
    requires AllWhite(before) && AllWhite(gap) && AllWhite(after) && AllColons(colons)
    requires mark == "- " || mark == "* " || (mark == "" && (colons != "" || !IsListItem(claim)))
    requires claim != "" && IsTrimmed(claim) && claim[0] != ':' && claim[0] != ';'
    requires mark == "" && colons == "" ==> gap == ""
    ensures ClaimText(prefix) == claim
  {
    var core := mark + colons + gap + claim;
    ClaimIsLastSentence(prefix, start);
    CoreIsTrimmed(mark, colons, gap, claim);
    TrimPadded(before, core, after);
    assert TrimListSyntax(core) == colons + gap + claim by {
      MarkComesOff(mark, colons, gap, claim);
    }
    assert colons + gap + claim == colons + (gap + claim);
    ColonsComeOff(colons, gap + claim);
    TrimPadded(gap, claim, "");
    assert gap + claim + "" == gap + claim;
    hide *;
    ClaimTextUnfold(prefix);
  }

  lemma {:induction false} ClaimTextUnfold(prefix: string)
    ensures ClaimText(prefix)
         == Trim(TrimStartColons(TrimListSyntax(Trim(prefix[ClaimStart(prefix, |prefix|)..]))))
  {
  }

  lemma {:induction false} CoreIsTrimmed(mark: string, colons: string, gap: string, claim: string)
    requires mark == "- " || mark == "* " || mark == ""
    requires AllColons(colons) && claim != "" && IsTrimmed(claim) && (mark == "" && colons == "" ==> gap == "")
    ensures IsTrimmed(mark + colons + gap + claim)
  {
    var core := mark + colons + gap + claim;
    assert core[|core| - 1] == claim[|claim| - 1];
    if mark != "" {
      assert core[0] == mark[0];
    } else if colons != "" {
      assert core[0] == colons[0];
    } else {
      assert core == claim;
    }
  }

  lemma {:induction false} MarkComesOff(mark: string, colons: string, gap: string, claim: string)
    requires mark == "- " || mark == "* " || (mark == "" && (colons != "" || !IsListItem(claim)))
    requires AllColons(colons) && claim != "" && (mark == "" && colons == "" ==> gap == "")
    ensures TrimListSyntax(mark + colons + gap + claim) == colons + gap + claim
  {
    var core := mark + colons + gap + claim;
    if mark != "" {
      assert core[..2] == mark && core[2..] == colons + gap + claim;
    } else {
      assert core == colons + gap + claim;
      assert colons != "" ==> core[0] == colons[0];
      assert colons == "" ==> core == claim;
      assert |core| >= 2 ==> core[..2] == [core[0], core[1]];
    }
  }

  lemma {:induction false} ColonsComeOff(colons: string, rest: string)
    requires AllColons(colons) && (rest == "" || (rest[0] != ':' && rest[0] != ';'))
    ensures TrimStartColons(colons + rest) == rest
  {
    if colons == "" {
      assert colons + rest == rest;
    } else {
      assert (colons + rest)[1..] == colons[1..] + rest;
      ColonsComeOff(colons[1..], rest);
    }
  }

  function Required(count: nat): nat {
    var needed := (2 * count + 2) / 3;
    if needed == 0 then 1 else needed
  }

  predicate IsSupported(u: Unicode, claim: string, evidence: string) {
    var evidenceNumbers := NumericValues(u, evidence);
    var claimTokens := MeaningfulTokens(u, claim);
    var evidenceTokens := MeaningfulTokens(u, evidence);
    && (forall number :: number in NumericValues(u, claim) ==> number in evidenceNumbers)
    && claimTokens != []
    && (forall token :: token in claimTokens && token in POLARITY ==> token in evidenceTokens)
    && |Filter(claimTokens, token => token in evidenceTokens)| >= Required(|claimTokens|)
  }

  /** `response.get(..offset)`: the text before a byte offset, if the offset is a character boundary. */
  function PrefixAt(response: string, offset: nat): (r: Option<string>)
    decreases |response|
  {
    if offset == 0 then Some("")
    else if response == [] || offset < Width(response[0]) then None
    else match PrefixAt(response[1..], offset - Width(response[0]))
         case Some(rest) => Some([response[0]] + rest)
         case None => None
  }

  /** `claim_is_supported_by`. */
  predicate ClaimIsSupportedBy(u: Unicode, markerStart: nat, response: string, evidence: string) {
    match PrefixAt(response, markerStart)
    case Some(prefix) => IsSupported(u, ClaimText(prefix), evidence)
    case None => false
  }

  lemma {:induction false} PrefixAtBoundary(response: string, k: nat)
    requires k <= |response|
    ensures PrefixAt(response, Bytes(response[..k])) == Some(response[..k])
  {
    if k > 0 {
      PrefixAtBoundary(response[1..], k - 1);
      assert response[..k][1..] == response[1..][..k - 1];
      assert response[..k] == [response[0]] + response[1..][..k - 1];
    }
  }

  /** There is text before an offset exactly when the offset is a character boundary. */
  lemma {:induction false} OnlyAtBoundaries(response: string, offset: nat)
    ensures PrefixAt(response, offset).Some? <==> IsBoundary(response, offset)
    decreases |response|
  {
    if IsBoundary(response, offset) {
      var k :| 0 <= k <= |response| && offset == Bytes(response[..k]);
      PrefixAtBoundary(response, k);
    }
    if PrefixAt(response, offset).Some? {
      var k := PrefixLength(response, offset);
      assert offset == Bytes(response[..k]);
    }
  }

  lemma {:induction false} PrefixLength(response: string, offset: nat) returns (k: nat)
    requires PrefixAt(response, offset).Some?
    ensures k <= |response| && offset == Bytes(response[..k])
    decreases |response|
  {
    if offset == 0 {
      k := 0;
    } else {
      var rest := PrefixLength(response[1..], offset - Width(response[0]));
      k := rest + 1;
      assert response[..k][1..] == response[1..][..rest];
    }
  }

  lemma {:induction false} FilterAll(tokens: seq<string>, keep: string -> bool)
    requires forall t :: t in tokens ==> keep(t)
    ensures Filter(tokens, keep) == tokens
  {
    if tokens != [] {
      FilterAll(tokens[1..], keep);
    }
  }

  /** Support in plain terms: no number and no negation of the claim is missing from the evidence, and
      at least two thirds of its content words, of which there is at least one, are there. */
  lemma {:induction false} SupportMeans(u: Unicode, claim: string, evidence: string)
    ensures var tokens, found := MeaningfulTokens(u, claim), MeaningfulTokens(u, evidence);
            IsSupported(u, claim, evidence)
            <==> && (forall number :: number in NumericValues(u, claim) ==> number in NumericValues(u, evidence))
                 && tokens != []
                 && (forall token :: token in tokens && token in POLARITY ==> token in found)
                 && 3 * |Filter(tokens, token => token in found)| >= 2 * |tokens|
  {
    hide NumericValues, MeaningfulTokens, Filter;
    var tokens := MeaningfulTokens(u, claim);
    assert tokens != [] ==> |tokens| > 0;
  }

  /** A text supports itself exactly when it has a content word. */
  lemma {:induction false} SelfSupport(u: Unicode, text: string)
    ensures IsSupported(u, text, text) <==> MeaningfulTokens(u, text) != []
  {
    hide NumericValues, MeaningfulTokens;
    var tokens := MeaningfulTokens(u, text);
    FilterAll(tokens, token => token in tokens);
    SupportMeans(u, text, text);
  }
}
