/** The English and French number vocabulary of `llm/citations.rs`, as one lexer from tokens to words. */
module Vocabulary {
  import opened Decimal
  import opened Sequences

  /** What a token is to the number parser. "quatre" and "vingt" are kept apart because together they
      are one atom; a token with a digit in it is a number component that the word parser cannot read. */
  datatype Word =
    | Conjunction | Times(factor: nat) | Scale(factor: nat) | Atom(value: nat) | Quatre | Vingt | Numeric | Other

  function Lex(token: string): Word {
    if HasDigit(token) then Numeric else
    match token
    case "and" => Conjunction case "et" => Conjunction
    case "dozen" => Times(12) case "douzaine" => Times(12)
    case "score" => Times(20)
    case "hundred" => Times(100) case "cent" => Times(100)
    case "thousand" => Scale(1_000) case "mille" => Scale(1_000)
    case "million" => Scale(1_000_000)
    case "billion" => Scale(1_000_000_000) case "milliard" => Scale(1_000_000_000)
    case "trillion" => Scale(1_000_000_000_000)
    case "zero" => Atom(0) case "z\U{E9}ro" => Atom(0)
    case "one" => Atom(1) case "un" => Atom(1)
    case "two" => Atom(2) case "deux" => Atom(2)
    case "three" => Atom(3) case "trois" => Atom(3)
    case "four" => Atom(4) case "quatre" => Quatre
    case "five" => Atom(5) case "cinq" => Atom(5)
    case "six" => Atom(6)
    case "seven" => Atom(7) case "sept" => Atom(7)
    case "eight" => Atom(8) case "huit" => Atom(8)
    case "nine" => Atom(9) case "neuf" => Atom(9)
    case "ten" => Atom(10) case "dix" => Atom(10)
    case "eleven" => Atom(11) case "onze" => Atom(11)
    case "twelve" => Atom(12) case "douze" => Atom(12)
    case "thirteen" => Atom(13) case "treize" => Atom(13)
    case "fourteen" => Atom(14) case "quatorze" => Atom(14)
    case "fifteen" => Atom(15) case "quinze" => Atom(15)
    case "sixteen" => Atom(16) case "seize" => Atom(16)
    case "seventeen" => Atom(17)
    case "eighteen" => Atom(18)
    case "nineteen" => Atom(19)
    case "twenty" => Atom(20) case "vingt" => Vingt case "vingts" => Vingt
    case "thirty" => Atom(30) case "trente" => Atom(30)
    case "forty" => Atom(40) case "quarante" => Atom(40)
    case "fifty" => Atom(50) case "cinquante" => Atom(50)
    case "sixty" => Atom(60) case "soixante" => Atom(60)
    case "seventy" => Atom(70)
    case "eighty" => Atom(80)
    case "ninety" => Atom(90)
    case _ => Other
  }

  function LexAll(tokens: seq<string>): seq<Word> {
    Map(Lex, tokens)
  }

  // --------------------------------------------------------------------------------------------
  // English
  // --------------------------------------------------------------------------------------------

  const ENGLISH_ONES: seq<string> :=
    ["zero", "one", "two", "three", "four", "five", "six", "seven", "eight", "nine"]

  const ENGLISH_TEENS: seq<string> :=
    ["ten", "eleven", "twelve", "thirteen", "fourteen", "fifteen", "sixteen", "seventeen", "eighteen", "nineteen"]

  const ENGLISH_TENS: seq<string> :=
    ["twenty", "thirty", "forty", "fifty", "sixty", "seventy", "eighty", "ninety"]

  const ENGLISH_SCALES: seq<string> := ["thousand", "million", "billion", "trillion"]

  function Pow1000(k: nat): (p: nat)
    requires k <= 5
    ensures p > 0
  {
    if k == 0 then 1 else if k == 1 then 1_000 else if k == 2 then 1_000_000 else if k == 3 then 1_000_000_000
    else if k == 4 then 1_000_000_000_000 else 1_000_000_000_000_000
  }

  /** The words English cardinals are made of, as symbols. */
  datatype EnglishSymbol = One(n: nat) | Teen(n: nat) | Ten(n: nat) | Hundred | Thousands(level: nat) | And {
    predicate Valid() {
      match this
      case One(n) => n < 10
      case Teen(n) => 10 <= n < 20
      case Ten(n) => 2 <= n <= 9
      case Thousands(level) => 1 <= level <= 4
      case _ => true
    }
  }

  type English = w: EnglishSymbol | w.Valid() witness Hundred

  function EnglishToken(w: English): string {
    match w
    case One(n) => ENGLISH_ONES[n]
    case Teen(n) => ENGLISH_TEENS[n - 10]
    case Ten(n) => ENGLISH_TENS[n - 2]
    case Hundred => "hundred"
    case Thousands(level) => ENGLISH_SCALES[level - 1]
    case And => "and"
  }

  function EnglishWord(w: English): Word {
    match w
    case One(n) => Atom(n)
    case Teen(n) => Atom(n)
    case Ten(n) => Atom(10 * n)
    case Hundred => Times(100)
    case Thousands(level) => Scale(Pow1000(level))
    case And => Conjunction
  }

  lemma {:induction false} EnglishLexes(w: English)
    ensures Lex(EnglishToken(w)) == EnglishWord(w)
  {
    match w
    case One(n) => EnglishOnesLex(n);
    case Teen(n) => EnglishTeensLex(n);
    case Ten(n) => EnglishTensLex(n);
    case Thousands(level) => EnglishScalesLex(level);
    case _ =>
  }

  lemma {:induction false} EnglishOnesLex(n: nat)
    requires n < 10
    ensures Lex(ENGLISH_ONES[n]) == Atom(n)
  {
  }

  lemma {:induction false} EnglishTeensLex(n: nat)
    requires 10 <= n < 20
    ensures Lex(ENGLISH_TEENS[n - 10]) == Atom(n)
  {
    if n < 15 {
      EnglishLowTeensLex(n);
    } else {
      EnglishHighTeensLex(n);
    }
  }

  lemma {:induction false} EnglishLowTeensLex(n: nat)
    requires 10 <= n < 15
    ensures Lex(ENGLISH_TEENS[n - 10]) == Atom(n)
  {
  }

  lemma {:induction false} EnglishHighTeensLex(n: nat)
    requires 15 <= n < 20
    ensures Lex(ENGLISH_TEENS[n - 10]) == Atom(n)
  {
  }

  lemma {:induction false} EnglishTensLex(n: nat)
    requires 2 <= n <= 9
    ensures Lex(ENGLISH_TENS[n - 2]) == Atom(10 * n)
  {
    if n < 6 {
      EnglishLowTensLex(n);
    } else {
      EnglishHighTensLex(n);
    }
  }

  lemma {:induction false} EnglishLowTensLex(n: nat)
    requires 2 <= n < 6
    ensures Lex(ENGLISH_TENS[n - 2]) == Atom(10 * n)
  {
  }

  lemma {:induction false} EnglishHighTensLex(n: nat)
    requires 6 <= n <= 9
    ensures Lex(ENGLISH_TENS[n - 2]) == Atom(10 * n)
  {
  }

  lemma {:induction false} EnglishScalesLex(level: nat)
    requires 1 <= level <= 4
    ensures Lex(ENGLISH_SCALES[level - 1]) == Scale(Pow1000(level))
  {
  }

  lemma {:induction false} EnglishAllLex(ws: seq<English>)
    ensures LexAll(Map(EnglishToken, ws)) == Map(EnglishWord, ws)
  {
    forall i | 0 <= i < |ws|
      ensures LexAll(Map(EnglishToken, ws))[i] == Map(EnglishWord, ws)[i]
    {
      EnglishLexes(ws[i]);
    }
  }

  // --------------------------------------------------------------------------------------------
  // French
  // --------------------------------------------------------------------------------------------

  const FRENCH_ONES: seq<string> :=
    ["z\U{E9}ro", "un", "deux", "trois", "quatre", "cinq", "six", "sept", "huit", "neuf"]

  const FRENCH_TEENS: seq<string> := ["dix", "onze", "douze", "treize", "quatorze", "quinze", "seize"]

  const FRENCH_TENS: seq<string> := ["trente", "quarante", "cinquante", "soixante"]

  /** The words French cardinals below one million are made of. "vingt" and "cent" take a plural s in
      final position; only "vingts" is in the vocabulary. */
  datatype FrenchSymbol = Un(n: nat) | Dix(n: nat) | Dizaine(n: nat) | VingtMot(plural: bool) | Cent(plural: bool)
    | Mille | Et {
    predicate Valid() {
      match this
      case Un(n) => n < 10
      case Dix(n) => 10 <= n <= 16
      case Dizaine(n) => 3 <= n <= 6
      case _ => true
    }
  }

  type French = w: FrenchSymbol | w.Valid() witness Mille

  function FrenchToken(w: French): string {
    match w
    case Un(n) => FRENCH_ONES[n]
    case Dix(n) => FRENCH_TEENS[n - 10]
    case Dizaine(n) => FRENCH_TENS[n - 3]
    case VingtMot(plural) => if plural then "vingts" else "vingt"
    case Cent(plural) => if plural then "cents" else "cent"
    case Mille => "mille"
    case Et => "et"
  }

  function FrenchWord(w: French): Word {
    match w
    case Un(n) => if n == 4 then Quatre else Atom(n)
    case Dix(n) => Atom(n)
    case Dizaine(n) => Atom(10 * n)
    case VingtMot(plural) => Vingt
    case Cent(plural) => if plural then Other else Times(100)
    case Mille => Scale(1_000)
    case Et => Conjunction
  }

  lemma {:induction false} FrenchLexes(w: French)
    ensures Lex(FrenchToken(w)) == FrenchWord(w)
  {
    match w
    case Un(n) => FrenchOnesLex(n);
    case Dix(n) => FrenchTeensLex(n);
    case Dizaine(n) => FrenchTensLex(n);
    case _ =>
  }

  lemma {:induction false} FrenchOnesLex(n: nat)
    requires n < 10
    ensures Lex(FRENCH_ONES[n]) == if n == 4 then Quatre else Atom(n)
  {
  }

  lemma {:induction false} FrenchTeensLex(n: nat)
    requires 10 <= n <= 16
    ensures Lex(FRENCH_TEENS[n - 10]) == Atom(n)
  {
  }

  lemma {:induction false} FrenchTensLex(n: nat)
    requires 3 <= n <= 6
    ensures Lex(FRENCH_TENS[n - 3]) == Atom(10 * n)
  {
  }

  lemma {:induction false} FrenchAllLex(ws: seq<French>)
    ensures LexAll(Map(FrenchToken, ws)) == Map(FrenchWord, ws)
  {
    forall i | 0 <= i < |ws|
      ensures LexAll(Map(FrenchToken, ws))[i] == Map(FrenchWord, ws)[i]
    {
      FrenchLexes(ws[i]);
    }
  }
}
