/** The word-number parser of `llm/citations.rs`, with the checked 128-bit arithmetic of the source,
    and what it makes of English and French cardinals. */
module NumberWords {
  import opened Wrappers
  import opened Sequences
  import opened Vocabulary

  const U128_MAX: nat := 0xFFFF_FFFF_FFFF_FFFF_FFFF_FFFF_FFFF_FFFF

  function CheckedMul(a: nat, b: nat): Option<nat> {
    if a * b <= U128_MAX then Some(a * b) else None
  }

  function CheckedAdd(a: nat, b: nat): Option<nat> {
    if a + b <= U128_MAX then Some(a + b) else None
  }

  function AtLeastOne(a: nat): nat {
    if a == 0 then 1 else a
  }

  /** `number_atom` at the head of `words`: the value and how many words it takes. */
  function NumberAtom(words: seq<Word>): Option<(nat, nat)>
    requires words != []
  {
    match words[0]
    case Quatre => if |words| > 1 && words[1] == Vingt then Some((80, 2)) else Some((4, 1))
    case Vingt => Some((20, 1))
    case Atom(value) => Some((value, 1))
    case _ => None
  }

  /** The state of the parser: what is summed, what is being scaled, words used, whether any counted. */
  datatype Parser = Parser(total: nat, current: nat, consumed: nat, sawNumber: bool)

  datatype Move = Skip | Stop | Overflow | Take(next: Parser)

  /** One turn of the loop. `is_number_component` is true of every word that is not `Other`. */
  function Turn(words: seq<Word>, p: Parser): (m: Move)
    requires words != []
    ensures m.Take? ==> p.consumed < m.next.consumed <= p.consumed + |words| && m.next.sawNumber
    ensures m.Skip? ==> p.sawNumber
  {
    var w := words[0];
    if w.Conjunction? then
      if p.sawNumber && |words| > 1 && !words[1].Other? then Skip else Stop
    else if w.Times? then
      match CheckedMul(AtLeastOne(p.current), w.factor)
      case Some(scaled) => Take(Parser(p.total, scaled, p.consumed + 1, true))
      case None => Overflow
    else if w.Scale? then
      match CheckedMul(AtLeastOne(p.current), w.factor)
      case None => Overflow
      case Some(scaled) =>
        match CheckedAdd(p.total, scaled)
        case Some(total) => Take(Parser(total, 0, p.consumed + 1, true))
        case None => Overflow
    else
      match NumberAtom(words)
      case None => Stop
      case Some((value, width)) =>
        match CheckedAdd(p.current, value)
        case Some(current) => Take(Parser(p.total, current, p.consumed + width, true))
        case None => Overflow
  }

  function Finish(p: Parser): Option<(nat, nat)> {
    if !p.sawNumber then None else
    match CheckedAdd(p.total, p.current)
    case Some(value) => Some((value, p.consumed))
    case None => None
  }

  /** The parser run on the words that are left. */
  function ParseFrom(words: seq<Word>, p: Parser): (r: Option<(nat, nat)>)
    ensures r.Some? ==> p.consumed <= r.value.1 <= p.consumed + |words| && (!p.sawNumber ==> p.consumed < r.value.1)
    ensures r.Some? ==> r.value.0 <= U128_MAX
    decreases |words|
  {
    if words == [] then Finish(p) else
    match Turn(words, p)
    case Skip => ParseFrom(words[1..], p.(consumed := p.consumed + 1))
    case Stop => Finish(p)
    case Overflow => None
    case Take(next) => ParseFrom(words[next.consumed - p.consumed..], next)
  }

  const START := Parser(0, 0, 0, false)

  /** `parse_word_number`: the value of the number words at the head of `tokens`, and how many tokens
      they take. */
  function ParseTokens(tokens: seq<string>): (r: Option<(nat, nat)>)
    ensures r.Some? ==> 0 < r.value.1 <= |tokens| && r.value.0 <= U128_MAX
  {
    ParseFrom(LexAll(tokens), START)
  }

  lemma {:induction false} ParseUnfold(words: seq<Word>, p: Parser)
    requires words != []
    ensures ParseFrom(words, p) ==
            match Turn(words, p)
            case Skip => ParseFrom(words[1..], p.(consumed := p.consumed + 1))
            case Stop => Finish(p)
            case Overflow => None
            case Take(next) => ParseFrom(words[next.consumed - p.consumed..], next)
  {
    hide Turn;
  }

  method ParseWordNumber(tokens: seq<string>) returns (r: Option<(nat, nat)>)
    ensures r == ParseTokens(tokens)
  {
    hide *;
    var words := LexAll(tokens);
    var p := START;
    ParseBegins(tokens);
    while p.consumed < |words|
      invariant Parsing(tokens, p)
      decreases |words| - p.consumed
    {
      ParseOne(tokens, p);
      match Turn(words[p.consumed..], p) {
        case Skip => p := p.(consumed := p.consumed + 1);
        case Stop => return Finish(p);
        case Overflow => return None;
        case Take(next) => p := next;
      }
    }
    ParseAll(tokens, p);
    r := Finish(p);
  }

  /** What is still to be parsed decides the answer. */
  ghost predicate Parsing(tokens: seq<string>, p: Parser) {
    p.consumed <= |LexAll(tokens)| && ParseFrom(LexAll(tokens)[p.consumed..], p) == ParseTokens(tokens)
  }

  lemma {:induction false} ParseBegins(tokens: seq<string>)
    ensures Parsing(tokens, START)
  {
    hide ParseFrom, LexAll;
    assert LexAll(tokens)[0..] == LexAll(tokens);
  }

  lemma {:induction false} ParseOne(tokens: seq<string>, p: Parser)
    requires Parsing(tokens, p) && p.consumed < |LexAll(tokens)|
    ensures match Turn(LexAll(tokens)[p.consumed..], p)
            case Skip => Parsing(tokens, p.(consumed := p.consumed + 1))
            case Stop => Finish(p) == ParseTokens(tokens)
            case Overflow => ParseTokens(tokens) == None
            case Take(next) => Parsing(tokens, next) && p.consumed < next.consumed
  {
    hide ParseFrom, ParseTokens, LexAll, Turn, Finish;
    var words := LexAll(tokens);
    var rest := words[p.consumed..];
    ParseUnfold(rest, p);
    match Turn(rest, p) {
      case Skip => assert rest[1..] == words[p.consumed + 1..];
      case Take(next) => assert rest[next.consumed - p.consumed..] == words[next.consumed..];
      case _ =>
    }
  }

  lemma {:induction false} ParseAll(tokens: seq<string>, p: Parser)
    requires Parsing(tokens, p) && p.consumed >= |LexAll(tokens)|
    ensures Finish(p) == ParseTokens(tokens)
  {
    hide ParseTokens, LexAll;
    assert LexAll(tokens)[p.consumed..] == [];
    ParseEnd(p);
  }

  lemma {:induction false} ParseEnd(p: Parser)
    ensures ParseFrom([], p) == Finish(p)
  {
  }

  // --------------------------------------------------------------------------------------------
  // How single words are read
  // --------------------------------------------------------------------------------------------

  /** The parser cannot go on into `rest`. */
  predicate StopsAt(rest: seq<Word>) {
    || rest == []
    || rest[0].Other? || rest[0].Numeric?
    || (rest[0].Conjunction? && !(|rest| > 1 && !rest[1].Other?))
  }

  /** The parser after one more word with the value `v`. */
  function Plus(p: Parser, v: nat, width: nat): Parser {
    Parser(p.total, p.current + v, p.consumed + width, true)
  }

  lemma {:induction false} ReadsAtom(w: Word, rest: seq<Word>, p: Parser, v: nat)
    requires w == Atom(v) || (w == Vingt && v == 20) || (w == Quatre && v == 4 && (rest == [] || !rest[0].Vingt?))
    requires p.current + v <= U128_MAX
    ensures ParseFrom([w] + rest, p) == ParseFrom(rest, Plus(p, v, 1))
  {
    var words := [w] + rest;
    assert words[1..] == rest;
  }

  lemma {:induction false} ReadsEighty(rest: seq<Word>, p: Parser)
    requires p.current + 80 <= U128_MAX
    ensures ParseFrom([Quatre, Vingt] + rest, p) == ParseFrom(rest, Plus(p, 80, 2))
  {
    var words := [Quatre, Vingt] + rest;
    assert words[2..] == rest && words[0] == Quatre && words[1] == Vingt;
    assert Turn(words, p) == Take(Plus(p, 80, 2));
    hide Turn;
  }

  lemma {:induction false} ReadsHundred(rest: seq<Word>, p: Parser)
    requires AtLeastOne(p.current) * 100 <= U128_MAX
    ensures ParseFrom([Times(100)] + rest, p)
            == ParseFrom(rest, Parser(p.total, AtLeastOne(p.current) * 100, p.consumed + 1, true))
  {
    assert ([Times(100)] + rest)[1..] == rest;
  }

  lemma {:induction false} ReadsScale(factor: nat, rest: seq<Word>, p: Parser)
    requires AtLeastOne(p.current) * factor <= U128_MAX && p.total + AtLeastOne(p.current) * factor <= U128_MAX
    ensures ParseFrom([Scale(factor)] + rest, p)
            == ParseFrom(rest, Parser(p.total + AtLeastOne(p.current) * factor, 0, p.consumed + 1, true))
  {
    assert ([Scale(factor)] + rest)[1..] == rest;
  }

  lemma {:induction false} ReadsConjunction(rest: seq<Word>, p: Parser)
    requires p.sawNumber && rest != [] && !rest[0].Other?
    ensures ParseFrom([Conjunction] + rest, p) == ParseFrom(rest, p.(consumed := p.consumed + 1))
  {
    assert ([Conjunction] + rest)[1..] == rest;
  }

  // --------------------------------------------------------------------------------------------
  // English cardinals
  // --------------------------------------------------------------------------------------------

  function EnglishBelow100(n: nat): seq<English>
    requires 0 < n < 100
  {
    if n < 10 then [One(n)]
    else if n < 20 then [Teen(n)]
    else if n % 10 == 0 then [Ten(n / 10)] else [Ten(n / 10), One(n % 10)]
  }

  /** A remainder below one hundred, after an "and" where the style calls for one. */
  function EnglishTail(n: nat, useAnd: bool): seq<English>
    requires n < 100
  {
    if n == 0 then [] else if useAnd then [And] + EnglishBelow100(n) else EnglishBelow100(n)
  }

  function EnglishBelow1000(n: nat, useAnd: bool): seq<English>
    requires 0 < n < 1000
  {
    if n < 100 then EnglishBelow100(n) else [One(n / 100), Hundred] + EnglishTail(n % 100, useAnd)
  }

  /** The groups of three digits of `n`, largest first, each but the last followed by its scale word. */
  function EnglishGroups(n: nat, useAnd: bool, level: nat): seq<English>
    requires level <= 4 && 0 < n < Pow1000(level + 1)
    decreases level, 1
  {
    if level == 0 then EnglishBelow1000(n, useAnd) else
    var (q, r) := (n / Pow1000(level), n % Pow1000(level));
    if q == 0 then EnglishGroups(n, useAnd, level - 1) else
    EnglishBelow1000(q, useAnd) + [Thousands(level)] + EnglishRest(r, useAnd, level)
  }

  /** What follows the group of level `level`. */
  function EnglishRest(r: nat, useAnd: bool, level: nat): seq<English>
    requires 1 <= level <= 4 && r < Pow1000(level)
    decreases level, 0
  {
    if r < 100 then EnglishTail(r, useAnd) else EnglishGroups(r, useAnd, level - 1)
  }

  /** The standard English cardinal of `n`, with or without "and". */
  function EnglishCardinal(n: nat, useAnd: bool): seq<English>
    requires n < Pow1000(5)
  {
    if n == 0 then [One(0)] else EnglishGroups(n, useAnd, 4)
  }

  function EnglishWords(ws: seq<English>): seq<Word> {
    Map(EnglishWord, ws)
  }

  lemma {:induction false} EnglishConcat(a: seq<English>, b: seq<English>, rest: seq<Word>)
    ensures EnglishWords(a + b) + rest == EnglishWords(a) + (EnglishWords(b) + rest)
    ensures |EnglishWords(a + b)| == |EnglishWords(a)| + |EnglishWords(b)|
  {
    MapConcat(EnglishWord, a, b);
  }

  lemma {:induction false} EnglishOneWord(w: English)
    ensures EnglishWords([w]) == [EnglishWord(w)]
  {
  }

  lemma {:induction false} EnglishTwoWords(v: English, w: English)
    ensures EnglishWords([v, w]) == [EnglishWord(v)] + [EnglishWord(w)]
  {
    MapConcat(EnglishWord, [v], [w]);
  }

  lemma {:induction false} ReadsTwoAtoms(a: nat, b: nat, rest: seq<Word>, p: Parser)
    requires p.current + a + b <= U128_MAX
    ensures ParseFrom([Atom(a)] + [Atom(b)] + rest, p) == ParseFrom(rest, Plus(p, a + b, 2))
  {
    hide ParseFrom;
    ReadsAtom(Atom(a), [Atom(b)] + rest, p, a);
    ReadsAtom(Atom(b), rest, Plus(p, a, 1), b);
    assert [Atom(a)] + [Atom(b)] + rest == [Atom(a)] + ([Atom(b)] + rest);
  }

  lemma {:induction false} ReadsBelow100(n: nat, rest: seq<Word>, p: Parser)
    requires 0 < n < 100 && p.current < 1000
    ensures var ws := EnglishWords(EnglishBelow100(n));
            && ws != [] && !ws[0].Other?
            && ParseFrom(ws + rest, p) == ParseFrom(rest, Plus(p, n, |ws|))
  {
    hide ParseFrom;
    if n < 20 {
      EnglishOneWord(if n < 10 then One(n) else Teen(n));
      ReadsAtom(Atom(n), rest, p, n);
    } else if n % 10 == 0 {
      EnglishOneWord(Ten(n / 10));
      ReadsAtom(Atom(n), rest, p, n);
    } else {
      EnglishTwoWords(Ten(n / 10), One(n % 10));
      ReadsTwoAtoms(10 * (n / 10), n % 10, rest, p);
    }
  }

  lemma {:induction false} ReadsTail(n: nat, useAnd: bool, rest: seq<Word>, p: Parser)
    requires n < 100 && p.sawNumber && p.current < 1000
    ensures var ws := EnglishWords(EnglishTail(n, useAnd));
            ParseFrom(ws + rest, p) == ParseFrom(rest, Plus(p, n, |ws|))
  {
    hide ParseFrom;
    if n == 0 {
      assert EnglishWords([]) + rest == rest;
    } else if useAnd {
      var ws := EnglishWords(EnglishBelow100(n));
      EnglishConcat([And], EnglishBelow100(n), rest);
      EnglishOneWord(And);
      ReadsBelow100(n, rest, p.(consumed := p.consumed + 1));
      ReadsConjunction(ws + rest, p);
    } else {
      ReadsBelow100(n, rest, p);
    }
  }

  lemma {:induction false} ReadsHundreds(h: nat, rest: seq<Word>, p: Parser)
    requires 0 < h < 10 && p.current == 0
    ensures ParseFrom([Atom(h)] + [Times(100)] + rest, p)
            == ParseFrom(rest, Parser(p.total, h * 100, p.consumed + 2, true))
  {
    hide ParseFrom;
    ReadsAtom(Atom(h), [Times(100)] + rest, p, h);
    ReadsHundred(rest, Plus(p, h, 1));
    assert [Atom(h)] + [Times(100)] + rest == [Atom(h)] + ([Times(100)] + rest);
  }

  lemma {:induction false} ReadsBelow1000(n: nat, useAnd: bool, rest: seq<Word>, p: Parser)
    requires 0 < n < 1000 && p.current == 0
    ensures var ws := EnglishWords(EnglishBelow1000(n, useAnd));
            && ws != [] && !ws[0].Other?
            && ParseFrom(ws + rest, p) == ParseFrom(rest, Plus(p, n, |ws|))
  {
    hide ParseFrom;
    if n < 100 {
      ReadsBelow100(n, rest, p);
    } else {
      var tail := EnglishTail(n % 100, useAnd);
      EnglishConcat([One(n / 100), Hundred], tail, rest);
      EnglishTwoWords(One(n / 100), Hundred);
      ReadsHundreds(n / 100, EnglishWords(tail) + rest, p);
      ReadsTail(n % 100, useAnd, rest, Parser(p.total, n / 100 * 100, p.consumed + 2, true));
    }
  }

  lemma {:induction false} StopsThere(rest: seq<Word>, p: Parser)
    requires StopsAt(rest) && p.sawNumber && p.total + p.current <= U128_MAX
    ensures ParseFrom(rest, p) == Some((p.total + p.current, p.consumed))
  {
  }

  /** One group of three digits with its scale word is added to the total. */
  lemma {:induction false} ReadsScaledGroup(q: nat, useAnd: bool, level: nat, rest: seq<Word>, p: Parser)
    requires 0 < q < 1000 && 1 <= level <= 4 && p.current == 0 && p.total + q * Pow1000(level) < Pow1000(5)
    ensures var ws := EnglishWords(EnglishBelow1000(q, useAnd) + [Thousands(level)]);
            ParseFrom(ws + rest, p)
            == ParseFrom(rest, Parser(p.total + q * Pow1000(level), 0, p.consumed + |ws|, true))
  {
    hide ParseFrom;
    var head := EnglishBelow1000(q, useAnd);
    EnglishConcat(head, [Thousands(level)], rest);
    EnglishOneWord(Thousands(level));
    ReadsBelow1000(q, useAnd, [Scale(Pow1000(level))] + rest, p);
    ReadsScale(Pow1000(level), rest, Plus(p, q, |EnglishWords(head)|));
  }

  lemma {:induction false} GroupsUnfold(n: nat, useAnd: bool, level: nat)
    requires 1 <= level <= 4 && 0 < n < Pow1000(level + 1)
    ensures var (q, r) := (n / Pow1000(level), n % Pow1000(level));
            && q < 1000 && r < Pow1000(level) && n == q * Pow1000(level) + r && (q == 0 ==> n < Pow1000(level))
            && EnglishGroups(n, useAnd, level) ==
               if q == 0 then EnglishGroups(n, useAnd, level - 1)
               else EnglishBelow1000(q, useAnd) + [Thousands(level)] + EnglishRest(r, useAnd, level)
  {
    GroupSplits(n, level, n / Pow1000(level), n % Pow1000(level));
    hide EnglishBelow1000, EnglishRest;
  }

  lemma {:induction false} RestUnfold(r: nat, useAnd: bool, level: nat)
    requires 1 <= level <= 4 && r < Pow1000(level)
    ensures r < 100 ==> EnglishRest(r, useAnd, level) == EnglishTail(r, useAnd)
    ensures r >= 100 ==> EnglishRest(r, useAnd, level) == EnglishGroups(r, useAnd, level - 1)
  {
    hide EnglishGroups, EnglishTail;
  }

  lemma {:induction false} ReadsGroups(n: nat, useAnd: bool, level: nat, rest: seq<Word>, p: Parser)
    requires level <= 4 && 0 < n < Pow1000(level + 1) && StopsAt(rest)
    requires p.current == 0 && p.total + n < Pow1000(5)
    ensures var ws := EnglishWords(EnglishGroups(n, useAnd, level));
            ParseFrom(ws + rest, p) == Some((p.total + n, p.consumed + |ws|))
    decreases level, 1
  {
    if level == 0 {
      hide ParseFrom, StopsAt, EnglishBelow1000;
      ReadsBelow1000(n, useAnd, rest, p);
      StopsThere(rest, Plus(p, n, |EnglishWords(EnglishBelow1000(n, useAnd))|));
    } else {
      hide ParseFrom, StopsAt, EnglishBelow1000, EnglishRest, EnglishGroups, Pow1000, EnglishWords;
      GroupsUnfold(n, useAnd, level);
      var (q, r) := (n / Pow1000(level), n % Pow1000(level));
      if q == 0 {
        ReadsGroups(n, useAnd, level - 1, rest, p);
      } else {
        var head := EnglishBelow1000(q, useAnd) + [Thousands(level)];
        var tail := EnglishRest(r, useAnd, level);
        EnglishConcat(head, tail, rest);
        ReadsScaledGroup(q, useAnd, level, EnglishWords(tail) + rest, p);
        ReadsRest(r, useAnd, level, rest, Parser(p.total + q * Pow1000(level), 0, p.consumed + |EnglishWords(head)|,
                                                 true));
      }
    }
  }

  lemma {:induction false} ReadsRest(r: nat, useAnd: bool, level: nat, rest: seq<Word>, p: Parser)
    requires 1 <= level <= 4 && r < Pow1000(level) && StopsAt(rest)
    requires p.current == 0 && p.total + r < Pow1000(5) && p.sawNumber
    ensures var ws := EnglishWords(EnglishRest(r, useAnd, level));
            ParseFrom(ws + rest, p) == Some((p.total + r, p.consumed + |ws|))
    decreases level, 0
  {
    hide *;
    RestUnfold(r, useAnd, level);
    if r >= 100 {
      ReadsGroups(r, useAnd, level - 1, rest, p);
    } else {
      ReadsLastTail(r, useAnd, rest, p);
    }
  }

  lemma {:induction false} ReadsLastTail(r: nat, useAnd: bool, rest: seq<Word>, p: Parser)
    requires r < 100 && StopsAt(rest) && p.current == 0 && p.total + r < Pow1000(5) && p.sawNumber
    ensures var ws := EnglishWords(EnglishTail(r, useAnd));
            ParseFrom(ws + rest, p) == Some((p.total + r, p.consumed + |ws|))
  {
    LevelsFit(p.total + r);
    hide *;
    ReadsTail(r, useAnd, rest, p);
    PlusIs(p, r, |EnglishWords(EnglishTail(r, useAnd))|);
    StopsThere(rest, Plus(p, r, |EnglishWords(EnglishTail(r, useAnd))|));
  }

  lemma {:induction false} LevelsFit(n: nat)
    requires n < Pow1000(5)
    ensures n <= U128_MAX
  {
  }

  lemma {:induction false} PlusIs(p: Parser, v: nat, width: nat)
    ensures Plus(p, v, width) == Parser(p.total, p.current + v, p.consumed + width, true)
  {
  }

  lemma {:induction false} GroupSplits(n: nat, level: nat, q: nat, r: nat)
    requires 1 <= level <= 4 && n < Pow1000(level + 1) && q == n / Pow1000(level) && r == n % Pow1000(level)
    ensures q < 1000 && r < Pow1000(level) && n == q * Pow1000(level) + r && (q == 0 ==> n < Pow1000(level))
  {
  }

  /** Every English cardinal below 10^15 is read back as its number and used up to its last word,
      whatever stops the parser after it. */
  lemma {:induction false} EnglishRoundTrip(n: nat, useAnd: bool, rest: seq<string>)
    requires n < Pow1000(5) && StopsAt(LexAll(rest))
    ensures var tokens := Map(EnglishToken, EnglishCardinal(n, useAnd));
            ParseTokens(tokens + rest) == Some((n, |tokens|))
  {
    var ws := EnglishCardinal(n, useAnd);
    var tokens := Map(EnglishToken, ws);
    assert ParseTokens(tokens + rest) == ParseFrom(LexAll(tokens + rest), START);
    assert LexAll(tokens) == Map(Lex, tokens) && EnglishWords(ws) == Map(EnglishWord, ws);
    EnglishAllLex(ws);
    MapConcat(Lex, tokens, rest);
    ReadsCardinal(n, useAnd, LexAll(rest));
    hide *;
  }

  lemma {:induction false} ReadsCardinal(n: nat, useAnd: bool, rest: seq<Word>)
    requires n < Pow1000(5) && StopsAt(rest)
    ensures var ws := EnglishWords(EnglishCardinal(n, useAnd));
            ParseFrom(ws + rest, START) == Some((n, |ws|))
  {
    hide ParseFrom, EnglishGroups, StopsAt;
    if n == 0 {
      EnglishOneWord(One(0));
      ReadsAtom(Atom(0), rest, START, 0);
      StopsThere(rest, Plus(START, 0, 1));
    } else {
      hide EnglishWords;
      ReadsGroups(n, useAnd, 4, rest, START);
    }
  }

  // --------------------------------------------------------------------------------------------
  // Counting in units
  // --------------------------------------------------------------------------------------------

  /** The words that multiply what stands before them. */
  const UNITS: map<string, nat> :=
    map["dozen" := 12, "douzaine" := 12, "score" := 20, "hundred" := 100, "cent" := 100, "thousand" := 1_000,
        "mille" := 1_000, "million" := 1_000_000, "billion" := 1_000_000_000, "milliard" := 1_000_000_000,
        "trillion" := 1_000_000_000_000]

  lemma {:induction false} UnitLexes(unit: string)
    requires unit in UNITS
    ensures Lex(unit) == Times(UNITS[unit]) || Lex(unit) == Scale(UNITS[unit])
    ensures UNITS[unit] <= 1_000_000_000_000
  {
  }

  lemma {:induction false} ReadsUnit(w: Word, size: nat, rest: seq<Word>, p: Parser)
    requires w == Times(size) || w == Scale(size)
    requires p.total == 0 && StopsAt(rest) && AtLeastOne(p.current) * size <= U128_MAX
    ensures ParseFrom([w] + rest, p) == Some((AtLeastOne(p.current) * size, p.consumed + 1))
  {
    var words := [w] + rest;
    assert words[1..] == rest;
    var next := if w.Times? then Parser(0, AtLeastOne(p.current) * size, p.consumed + 1, true)
                else Parser(AtLeastOne(p.current) * size, 0, p.consumed + 1, true);
    ParseUnfold(words, p);
    assert Turn(words, p) == Take(next);
    hide ParseFrom, Turn, StopsAt;
    StopsThere(rest, next);
  }

  /** The words of a number below one thousand, and no word for zero. */
  function Count(n: nat, useAnd: bool): seq<English>
    requires n < 1000
  {
    if n == 0 then [] else EnglishBelow1000(n, useAnd)
  }

  /** A number of units is that many times the unit, and a unit alone is one of them: "two dozen", "a score". */
  lemma {:induction false} UnitsAreCounted(n: nat, useAnd: bool, unit: string, rest: seq<string>)
    requires n < 1000 && unit in UNITS && StopsAt(LexAll(rest))
    ensures n > 0 ==> n < Pow1000(5) && Count(n, useAnd) == EnglishCardinal(n, useAnd)
    ensures var count := Map(EnglishToken, Count(n, useAnd));
            ParseTokens(count + [unit] + rest) == Some((AtLeastOne(n) * UNITS[unit], |count| + 1))
  {
    hide *;
    if n > 0 {
      SmallCardinal(n, useAnd);
      CountIs(n, useAnd);
    }
    var count := Map(EnglishToken, Count(n, useAnd));
    UnitLexes(unit);
    LexesCount(Count(n, useAnd), unit, rest);
    ReadsCount(n, useAnd, Lex(unit), UNITS[unit], LexAll(rest));
    ParsedFrom(count + [unit] + rest);
  }

  lemma {:induction false} ParsedFrom(tokens: seq<string>)
    ensures ParseTokens(tokens) == ParseFrom(LexAll(tokens), START)
  {
  }

  lemma {:induction false} LexesCount(ws: seq<English>, unit: string, rest: seq<string>)
    ensures LexAll(Map(EnglishToken, ws) + [unit] + rest) == EnglishWords(ws) + ([Lex(unit)] + LexAll(rest))
    ensures |EnglishWords(ws)| == |ws|
  {
    EnglishAllLex(ws);
    LexJoins(Map(EnglishToken, ws), unit, rest);
    hide Lex, EnglishToken, EnglishWord, LexAll;
    Sequences.Regroup(EnglishWords(ws), [Lex(unit)], LexAll(rest));
  }

  lemma {:induction false} LexJoins(count: seq<string>, unit: string, rest: seq<string>)
    ensures LexAll(count + [unit] + rest) == LexAll(count) + [Lex(unit)] + LexAll(rest)
  {
    hide Lex;
    assert LexAll([unit]) == [Lex(unit)];
    MapConcat(Lex, count + [unit], rest);
    MapConcat(Lex, count, [unit]);
  }

  lemma {:induction false} ReadsCount(n: nat, useAnd: bool, w: Word, size: nat, rest: seq<Word>)
    requires n < 1000 && (w == Times(size) || w == Scale(size)) && size <= 1_000_000_000_000 && StopsAt(rest)
    ensures var ws := EnglishWords(Count(n, useAnd));
            ParseFrom(ws + ([w] + rest), START) == Some((AtLeastOne(n) * size, |ws| + 1))
  {
    Below(AtLeastOne(n), size);
    if n == 0 {
      assert EnglishWords([]) == [] && [] + ([w] + rest) == [w] + rest;
      hide ParseFrom, StopsAt, EnglishBelow1000;
      ReadsUnit(w, size, rest, START);
    } else {
      hide *;
      CountIs(n, useAnd);
      var ws := EnglishWords(EnglishBelow1000(n, useAnd));
      ReadsBelow1000(n, useAnd, [w] + rest, START);
      ReadsUnit(w, size, rest, Plus(START, n, |ws|));
    }
  }

  lemma {:induction false} CountIs(n: nat, useAnd: bool)
    requires 0 < n < 1000
    ensures Count(n, useAnd) == EnglishBelow1000(n, useAnd) && AtLeastOne(n) == n
    ensures START.current == 0 && U128_MAX > 1_000_000_000_000_000
    ensures forall k :: var p := Plus(START, n, k); p.total == 0 && p.current == n && p.consumed == k
  {
    hide EnglishBelow1000;
  }

  lemma {:induction false} Below(n: nat, size: nat)
    requires n < 1000 && size <= 1_000_000_000_000
    ensures n * size <= 1000 * 1_000_000_000_000
  {
    assert n * size <= 1000 * size;
  }

  lemma {:induction false} SmallCardinal(n: nat, useAnd: bool)
    requires 0 < n < 1000
    ensures n < Pow1000(5) && EnglishCardinal(n, useAnd) == EnglishBelow1000(n, useAnd)
  {
    GroupsUnfold(n, useAnd, 4);
    GroupsUnfold(n, useAnd, 3);
    GroupsUnfold(n, useAnd, 2);
    GroupsUnfold(n, useAnd, 1);
    hide EnglishBelow1000;
  }

  // --------------------------------------------------------------------------------------------
  // French cardinals
  // --------------------------------------------------------------------------------------------

  function FrenchBelow20(n: nat): seq<French>
    requires 0 < n < 20
  {
    if n < 10 then [Un(n)] else if n <= 16 then [Dix(n)] else [Dix(10), Un(n - 10)]
  }

  /** The tens word a number below one hundred starts with, and the value it stands for. */
  function FrenchTens(n: nat, final: bool): (r: (seq<French>, nat))
    requires 20 <= n < 100
    ensures r.1 <= n < r.1 + 20
  {
    if n < 30 then ([VingtMot(false)], 20)
    else if n < 70 then ([Dizaine(n / 10)], n / 10 * 10)
    else if n < 80 then ([Dizaine(6)], 60)
    else ([Un(4), VingtMot(final && n == 80)], 80)
  }

  /** "vingt et un", "soixante et onze", but "quatre-vingt-un". */
  function FrenchBelow100(n: nat, final: bool): seq<French>
    requires 0 < n < 100
  {
    if n < 20 then FrenchBelow20(n) else
    var (tens, value) := FrenchTens(n, final);
    if n == value then tens
    else if (n % 10 == 1 && n < 70) || n == 71 then tens + ([Et] + FrenchBelow20(n - value))
    else tens + FrenchBelow20(n - value)
  }

  function FrenchHundreds(h: nat, plural: bool): seq<French>
    requires 0 < h < 10
  {
    if h == 1 then [Cent(false)] else [Un(h), Cent(plural)]
  }

  function FrenchBelow1000(n: nat, final: bool): seq<French>
    requires 0 < n < 1000
  {
    var (h, r) := (n / 100, n % 100);
    if h == 0 then FrenchBelow100(n, final)
    else FrenchHundreds(h, final && r == 0) + if r == 0 then [] else FrenchBelow100(r, final)
  }

  /** The French cardinal of `n`, in the standard spelling. */
  function FrenchCardinal(n: nat): seq<French>
    requires n < 1_000_000
  {
    var (q, r) := (n / 1000, n % 1000);
    if n == 0 then [Un(0)]
    else if q == 0 then FrenchBelow1000(n, true)
    else FrenchThousands(q) + FrenchLast(r)
  }

  function FrenchThousands(q: nat): seq<French>
    requires 0 < q < 1000
  {
    (if q == 1 then [] else FrenchBelow1000(q, false)) + [Mille]
  }

  function FrenchLast(r: nat): seq<French>
    requires r < 1000
  {
    if r == 0 then [] else FrenchBelow1000(r, true)
  }

  /** "deux cents", "trois mille neuf cents": the spelling ends in a plural hundred. */
  predicate EndsInPluralHundred(n: nat) {
    n % 1000 >= 200 && n % 100 == 0
  }

  function FrenchWords(ws: seq<French>): seq<Word> {
    Map(FrenchWord, ws)
  }

  lemma {:induction false} FrenchConcat(a: seq<French>, b: seq<French>, rest: seq<Word>)
    ensures FrenchWords(a + b) + rest == FrenchWords(a) + (FrenchWords(b) + rest)
    ensures |FrenchWords(a + b)| == |FrenchWords(a)| + |FrenchWords(b)|
  {
    MapConcat(FrenchWord, a, b);
  }

  lemma {:induction false} FrenchOneWord(w: French)
    ensures FrenchWords([w]) == [FrenchWord(w)]
  {
  }

  lemma {:induction false} FrenchTwoWords(v: French, w: French)
    ensures FrenchWords([v, w]) == [FrenchWord(v)] + [FrenchWord(w)]
  {
    MapConcat(FrenchWord, [v], [w]);
  }

  /** "quatre" must not meet a "vingt" that is not its own. */
  predicate NoVingt(rest: seq<Word>) {
    rest == [] || !rest[0].Vingt?
  }

  lemma {:induction false} FrenchReadsUn(n: nat, rest: seq<Word>, p: Parser)
    requires n < 10 && p.current < 2000 && NoVingt(rest)
    ensures FrenchWords([Un(n)]) == [FrenchWord(Un(n))]
    ensures ParseFrom([FrenchWord(Un(n))] + rest, p) == ParseFrom(rest, Plus(p, n, 1))
  {
    hide ParseFrom;
    FrenchOneWord(Un(n));
    ReadsAtom(FrenchWord(Un(n)), rest, p, n);
  }

  lemma {:induction false} FrenchReadsBelow20(n: nat, rest: seq<Word>, p: Parser)
    requires 0 < n < 20 && p.current < 2000 && NoVingt(rest)
    ensures var ws := FrenchWords(FrenchBelow20(n));
            && ws != [] && !ws[0].Other? && !ws[0].Vingt?
            && ParseFrom(ws + rest, p) == ParseFrom(rest, Plus(p, n, |ws|))
  {
    hide ParseFrom;
    if n < 10 {
      FrenchReadsUn(n, rest, p);
    } else if n <= 16 {
      FrenchOneWord(Dix(n));
      ReadsAtom(Atom(n), rest, p, n);
    } else {
      FrenchTwoWords(Dix(10), Un(n - 10));
      ReadsTwoAtoms(10, n - 10, rest, p);
    }
  }

  lemma {:induction false} FrenchReadsTens(n: nat, final: bool, rest: seq<Word>, p: Parser)
    requires 20 <= n < 100 && p.current < 1000
    ensures var (tens, value) := FrenchTens(n, final);
            var ws := FrenchWords(tens);
            && ws != [] && !ws[0].Other?
            && ParseFrom(ws + rest, p) == ParseFrom(rest, Plus(p, value, |ws|))
  {
    hide ParseFrom;
    if n < 30 {
      FrenchOneWord(VingtMot(false));
      ReadsAtom(Vingt, rest, p, 20);
    } else if n < 80 {
      var t := if n < 70 then n / 10 else 6;
      FrenchOneWord(Dizaine(t));
      ReadsAtom(Atom(10 * t), rest, p, 10 * t);
    } else {
      FrenchTwoWords(Un(4), VingtMot(final && n == 80));
      ReadsEighty(rest, p);
      assert [Quatre] + [Vingt] == [Quatre, Vingt];
    }
  }

  lemma {:induction false} FrenchWithEt(tens: seq<French>, u: nat, rest: seq<Word>)
    requires 0 < u < 20
    ensures var ws := FrenchWords(tens + ([Et] + FrenchBelow20(u)));
            && ws + rest == FrenchWords(tens) + ([Conjunction] + (FrenchWords(FrenchBelow20(u)) + rest))
            && |ws| == |FrenchWords(tens)| + 1 + |FrenchWords(FrenchBelow20(u))|
            && (FrenchWords(tens) != [] ==> ws != [] && ws[0] == FrenchWords(tens)[0])
  {
    hide FrenchBelow20, FrenchWords;
    var units := FrenchBelow20(u);
    FrenchConcat(tens, [Et] + units, rest);
    FrenchConcat([Et], units, rest);
    FrenchOneWord(Et);
    FrenchHead(tens, [Et] + units);
  }

  lemma {:induction false} FrenchHead(a: seq<French>, b: seq<French>)
    ensures FrenchWords(a) != [] ==> FrenchWords(a + b) != [] && FrenchWords(a + b)[0] == FrenchWords(a)[0]
  {
    MapConcat(FrenchWord, a, b);
  }

  lemma {:induction false} FrenchBelow100Is(n: nat, final: bool)
    requires 0 < n < 100
    ensures n < 20 ==> FrenchBelow100(n, final) == FrenchBelow20(n)
    ensures n >= 20 ==>
              var (tens, value) := FrenchTens(n, final);
              FrenchBelow100(n, final) ==
              if n == value then tens
              else if (n % 10 == 1 && n < 70) || n == 71 then tens + ([Et] + FrenchBelow20(n - value))
              else tens + FrenchBelow20(n - value)
  {
    hide FrenchTens, FrenchBelow20;
  }

  lemma {:induction false} FrenchReadsBelow100(n: nat, final: bool, rest: seq<Word>, p: Parser)
    requires 0 < n < 100 && p.current < 1000 && NoVingt(rest)
    ensures var ws := FrenchWords(FrenchBelow100(n, final));
            && ws != [] && !ws[0].Other?
            && ParseFrom(ws + rest, p) == ParseFrom(rest, Plus(p, n, |ws|))
  {
    hide ParseFrom, FrenchTens, FrenchBelow100, FrenchBelow20, FrenchWords, NoVingt;
    FrenchBelow100Is(n, final);
    if n < 20 {
      FrenchReadsBelow20(n, rest, p);
    } else {
      var (tens, value) := FrenchTens(n, final);
      if n == value {
        FrenchReadsTens(n, final, rest, p);
      } else {
        var units := FrenchWords(FrenchBelow20(n - value));
        var p' := Plus(p, value, |FrenchWords(tens)|);
        if (n % 10 == 1 && n < 70) || n == 71 {
          FrenchWithEt(tens, n - value, rest);
          FrenchReadsTens(n, final, [Conjunction] + (units + rest), p);
          FrenchReadsBelow20(n - value, rest, p'.(consumed := p'.consumed + 1));
          ReadsConjunction(units + rest, p');
        } else {
          FrenchConcat(tens, FrenchBelow20(n - value), rest);
          FrenchHead(tens, FrenchBelow20(n - value));
          FrenchReadsTens(n, final, units + rest, p);
          FrenchReadsBelow20(n - value, rest, p');
        }
      }
    }
  }

  lemma {:induction false} FrenchReadsHundreds(h: nat, rest: seq<Word>, p: Parser)
    requires 0 < h < 10 && p.current == 0
    ensures var ws := FrenchWords(FrenchHundreds(h, false));
            ws != [] && ParseFrom(ws + rest, p) == ParseFrom(rest, Plus(p, 100 * h, |ws|))
  {
    hide ParseFrom;
    if h == 1 {
      FrenchOneWord(Cent(false));
      ReadsHundred(rest, p);
    } else {
      FrenchTwoWords(Un(h), Cent(false));
      var w := FrenchWord(Un(h));
      FrenchReadsUn(h, [Times(100)] + rest, p);
      ReadsHundred(rest, Plus(p, h, 1));
      assert [w] + [Times(100)] + rest == [w] + ([Times(100)] + rest);
    }
  }

  /** A plural hundred stops the parser after its digit: "deux cents" is read as two. */
  lemma {:induction false} FrenchStopsAtCents(h: nat, rest: seq<Word>, p: Parser)
    requires 2 <= h < 10 && p.current == 0 && p.total + h <= U128_MAX
    ensures var ws := FrenchWords(FrenchHundreds(h, true));
            |ws| == 2 && ParseFrom(ws + rest, p) == Some((p.total + h, p.consumed + 1))
  {
    hide ParseFrom;
    FrenchTwoWords(Un(h), Cent(true));
    var w := FrenchWord(Un(h));
    FrenchReadsUn(h, [Other] + rest, p);
    StopsThere([Other] + rest, Plus(p, h, 1));
    assert [w] + [Other] + rest == [w] + ([Other] + rest);
  }

  lemma {:induction false} FrenchReadsBelow1000(n: nat, final: bool, rest: seq<Word>, p: Parser)
    requires 0 < n < 1000 && p.current == 0 && p.total < 1_000_000 && NoVingt(rest)
    ensures var ws := FrenchWords(FrenchBelow1000(n, final));
            if final && EndsInPluralHundred(n)
            then |ws| == 2 && ParseFrom(ws + rest, p) == Some((p.total + n / 100, p.consumed + 1))
            else ParseFrom(ws + rest, p) == ParseFrom(rest, Plus(p, n, |ws|))
  {
    hide ParseFrom, FrenchHundreds, FrenchBelow100;
    var (h, r) := (n / 100, n % 100);
    if h == 0 {
      FrenchReadsBelow100(n, final, rest, p);
    } else if r == 0 {
      assert FrenchBelow1000(n, final) == FrenchHundreds(h, final);
      if final && h >= 2 {
        FrenchStopsAtCents(h, rest, p);
      } else {
        HundredsPlural(h, final);
        FrenchReadsHundreds(h, rest, p);
      }
    } else {
      var tail := FrenchBelow100(r, final);
      FrenchConcat(FrenchHundreds(h, false), tail, rest);
      FrenchReadsHundreds(h, FrenchWords(tail) + rest, p);
      FrenchReadsBelow100(r, final, rest, Plus(p, 100 * h, |FrenchWords(FrenchHundreds(h, false))|));
    }
  }

  lemma {:induction false} HundredsPlural(h: nat, plural: bool)
    requires 0 < h < 10 && (h == 1 || !plural)
    ensures FrenchHundreds(h, plural) == FrenchHundreds(h, false)
  {
  }

  /** The thousands of a French cardinal: "mille", or a number of them. */
  lemma {:induction false} FrenchReadsThousands(q: nat, rest: seq<Word>, p: Parser)
    requires 0 < q < 1000 && p == START
    ensures var ws := FrenchWords(FrenchThousands(q));
            ParseFrom(ws + rest, p) == ParseFrom(rest, Parser(1000 * q, 0, |ws|, true))
  {
    hide ParseFrom, FrenchBelow1000;
    FrenchOneWord(Mille);
    if q == 1 {
      assert [] + [Mille] == [Mille];
      ReadsScale(1000, rest, p);
    } else {
      var head := FrenchBelow1000(q, false);
      FrenchConcat(head, [Mille], rest);
      FrenchReadsBelow1000(q, false, [Scale(1000)] + rest, p);
      ReadsScale(1000, rest, Plus(p, q, |FrenchWords(head)|));
    }
  }

  /** The last three digits, after `p` has taken the thousands. */
  lemma {:induction false} FrenchReadsLast(r: nat, rest: seq<Word>, p: Parser)
    requires r < 1000 && StopsAt(rest) && p.current == 0 && p.total < 1_000_000 && (r == 0 ==> p.sawNumber)
    ensures var ws := FrenchWords(FrenchLast(r));
            ParseFrom(ws + rest, p)
            == if EndsInPluralHundred(r) then Some((p.total + r / 100, p.consumed + |ws| - 1))
               else Some((p.total + r, p.consumed + |ws|))
  {
    hide ParseFrom, FrenchBelow1000;
    if r == 0 {
      assert FrenchWords([]) + rest == rest;
      StopsThere(rest, p);
    } else {
      FrenchReadsBelow1000(r, true, rest, p);
      StopsThere(rest, Plus(p, r, |FrenchWords(FrenchBelow1000(r, true))|));
    }
  }

  lemma {:induction false} FrenchReadsBig(q: nat, r: nat, rest: seq<Word>)
    requires 0 < q < 1000 && r < 1000 && StopsAt(rest)
    ensures var ws := FrenchWords(FrenchThousands(q) + FrenchLast(r));
            ParseFrom(ws + rest, START)
            == if EndsInPluralHundred(r) then Some((1000 * q + r / 100, |ws| - 1)) else Some((1000 * q + r, |ws|))
  {
    hide *;
    var head, tail := FrenchThousands(q), FrenchLast(r);
    FrenchConcat(head, tail, rest);
    FrenchReadsThousands(q, FrenchWords(tail) + rest, START);
    FrenchReadsLast(r, rest, Parser(1000 * q, 0, |FrenchWords(head)|, true));
  }

  lemma {:induction false} PluralHundred(n: nat)
    ensures EndsInPluralHundred(n) <==> EndsInPluralHundred(n % 1000)
    ensures EndsInPluralHundred(n) ==> n - 99 * (n % 1000 / 100) == 1000 * (n / 1000) + n % 1000 / 100
  {
    var q, r := n / 1000, n % 1000;
    var a, b := r / 100, r % 100;
    LastTwoDigits(n, 10 * q + a, b);
  }

  lemma {:induction false} LastTwoDigits(n: nat, k: nat, b: nat)
    requires n == 100 * k + b && b < 100
    ensures n % 100 == b
  {
  }

  lemma {:induction false} FrenchReads(n: nat, rest: seq<Word>)
    requires n < 1_000_000 && StopsAt(rest)
    ensures var ws := FrenchWords(FrenchCardinal(n));
            ParseFrom(ws + rest, START)
            == if EndsInPluralHundred(n) then Some((n - 99 * (n % 1000 / 100), |ws| - 1)) else Some((n, |ws|))
  {
    hide ParseFrom, FrenchBelow1000;
    PluralHundred(n);
    if n == 0 {
      FrenchReadsUn(0, rest, START);
      StopsThere(rest, Plus(START, 0, 1));
    } else {
      hide EndsInPluralHundred, FrenchWords;
      if n < 1000 {
        FrenchReadsLast(n, rest, START);
      } else {
        FrenchReadsBig(n / 1000, n % 1000, rest);
      }
    }
  }

  /** French cardinals below one million are read back exactly when they do not end in a plural
      hundred: "cents" is missing from the vocabulary, so "deux cents" is taken for two. */
  lemma {:induction false} FrenchRoundTrip(n: nat, rest: seq<string>)
    requires n < 1_000_000 && StopsAt(LexAll(rest))
    ensures var tokens := Map(FrenchToken, FrenchCardinal(n));
            ParseTokens(tokens + rest) == Some((n, |tokens|)) <==> !EndsInPluralHundred(n)
  {
    hide ParseFrom, FrenchCardinal;
    var ws := FrenchCardinal(n);
    FrenchAllLex(ws);
    MapConcat(Lex, Map(FrenchToken, ws), rest);
    FrenchReads(n, LexAll(rest));
  }
}
