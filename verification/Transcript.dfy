/** The transcript printer and the timestamp reader of `clients/youtube.rs`. Seconds are reals; the parser of
    one floating-point number is a parameter. */
module Transcript {
  import opened Wrappers
  import opened Decimal
  import opened Sequences
  import opened Text

  datatype Snippet = Snippet(text: string, start: real, duration: real)

  type FloatParser = string -> Option<real>

  // --------------------------------------------------------------------------------------------
  // Printing
  // --------------------------------------------------------------------------------------------

  const U64_MAX: int := 0xFFFF_FFFF_FFFF_FFFF

  /** `seconds as u64`. */
  function WholeSeconds(seconds: real): nat {
    if seconds < 0.0 then 0 else if seconds.Floor > U64_MAX then U64_MAX else seconds.Floor
  }

  function TwoDigits(n: nat): (s: string)
    ensures AllDigits(s) && s != "" && Value(s) == n
  {
    if n < 10 then
      ValueConcat("0", Show(n));
      "0" + Show(n)
    else Show(n)
  }

  function FormatTimestamp(seconds: real): string {
    TwoDigits(WholeSeconds(seconds) / 60) + ":" + TwoDigits(WholeSeconds(seconds) % 60)
  }

  function Escaped(s: string, c: char): string {
    if s == "" then ""
    else (if s[0] == c then ['\\', c] else [s[0]]) + Escaped(s[1..], c)
  }

  function SafeTitle(title: string): string {
    var title := Escaped(title, '\\');
    var title := Escaped(title, '#');
    var title := Escaped(title, '[');
    var title := Escaped(title, ']');
    Escaped(title, '`')
  }

  function TitleBlock(title: string): string {
    if title == "" then "" else "# " + SafeTitle(title) + "\n\n"
  }

  /** The start of the section that snippet `i` is printed under. */
  function SectionStart(snippets: seq<Snippet>, i: nat): real
    requires i < |snippets|
    decreases i, 1
  {
    if i == 0 then snippets[0].start
    else if OpensSection(snippets, i) then snippets[i].start
    else SectionStart(snippets, i - 1)
  }

  predicate OpensSection(snippets: seq<Snippet>, i: nat)
    requires 0 < i < |snippets|
    decreases i, 0
  {
    snippets[i].start >= SectionStart(snippets, i - 1) + 60.0
  }

  function LastEnd(snippets: seq<Snippet>): real {
    if snippets == [] then 0.0 else snippets[|snippets| - 1].start + snippets[|snippets| - 1].duration
  }

  function Min(a: real, b: real): real { if a <= b then a else b }

  function Header(start: real, end: real, last: real): string {
    "## [" + (FormatTimestamp(start) + " - " + FormatTimestamp(Min(end, last))) + "]"
  }

  function HeaderLine(start: real, last: real): string {
    Header(start, start + 60.0, last)
  }

  function SnippetText(s: Snippet): string {
    "[" + FormatTimestamp(s.start) + "] " + Trim(s.text)
  }

  function HeaderBlock(start: real, end: real, last: real): string {
    "\n" + Header(start, end, last) + "\n\n"
  }

  function SnippetBlock(s: Snippet): string {
    SnippetText(s) + "\n"
  }

  function Item(snippets: seq<Snippet>, i: nat): string
    requires i < |snippets|
  {
    (if i > 0 && OpensSection(snippets, i)
     then HeaderBlock(snippets[i].start, snippets[i].start + 60.0, LastEnd(snippets)) else "")
    + SnippetBlock(snippets[i])
  }

  function Items(snippets: seq<Snippet>, n: nat): string
    requires n <= |snippets|
  {
    if n == 0 then "" else Items(snippets, n - 1) + Item(snippets, n - 1)
  }

  function Markdown(snippets: seq<Snippet>, title: string): string {
    if snippets == [] then ""
    else TitleBlock(title) + (HeaderLine(snippets[0].start, LastEnd(snippets)) + "\n\n") + Items(snippets, |snippets|)
  }

  /** `format_transcript_as_markdown`. */
  method FormatTranscript(snippets: seq<Snippet>, title: string) returns (output: string)
    ensures output == Markdown(snippets, title)
  {
    hide *;
    if snippets == [] {
      NoMarkdown(title);
      return "";
    }
    output := "";
    if title != "" {
      output := "# " + SafeTitle(title) + "\n\n";
    }
    TitleText(title);
    assert output == TitleBlock(title);
    var sectionStart := snippets[0].start;
    var sectionEnd := sectionStart + 60.0;
    output := output + (Header(sectionStart, sectionEnd, LastEnd(snippets)) + "\n\n");
    ghost var head := output;
    ToPrinted(snippets, head);
    for i := 0 to |snippets|
      invariant Printed(snippets, head, i, sectionStart, output)
      invariant sectionEnd == sectionStart + 60.0
    {
      var s := snippets[i];
      ghost var before, current := output, sectionStart;
      if s.start >= sectionEnd {
        sectionStart := s.start;
        sectionEnd := sectionStart + 60.0;
        output := output + HeaderBlock(sectionStart, sectionEnd, LastEnd(snippets));
      }
      output := output + SnippetBlock(s);
      PrintedStep(snippets, head, i, current, before);
    }
    FromPrinted(snippets, title, head, sectionStart, output);
  }

  lemma {:induction false} ToPrinted(snippets: seq<Snippet>, head: string)
    requires snippets != []
    ensures Printed(snippets, head, 0, snippets[0].start, head)
  {
    hide Items, SectionStart;
    ItemsStart(snippets, head);
  }

  lemma {:induction false} FromPrinted(snippets: seq<Snippet>, title: string, head: string, sectionStart: real,
                                       output: string)
    requires snippets != [] && Printed(snippets, head, |snippets|, sectionStart, output)
    requires head == TitleBlock(title) + (Header(snippets[0].start, snippets[0].start + 60.0,
                                                 LastEnd(snippets)) + "\n\n")
    ensures output == Markdown(snippets, title)
  {
    MarkdownHead(snippets, title);
    hide Items, SectionStart, Markdown, TitleBlock, Header, LastEnd;
  }

  lemma {:induction false} NoMarkdown(title: string)
    ensures Markdown([], title) == ""
  {
  }

  lemma {:induction false} TitleText(title: string)
    ensures TitleBlock(title) == if title == "" then "" else "# " + SafeTitle(title) + "\n\n"
  {
  }

  ghost predicate Printed(snippets: seq<Snippet>, head: string, i: nat, sectionStart: real, output: string)
    requires i <= |snippets| && snippets != []
  {
    && output == head + Items(snippets, i)
    && sectionStart == SectionStart(snippets, if i == 0 then 0 else i - 1)
  }

  lemma {:induction false} PrintedStep(snippets: seq<Snippet>, head: string, i: nat, sectionStart: real, before: string)
    requires i < |snippets| && Printed(snippets, head, i, sectionStart, before)
    ensures var s := snippets[i];
            if s.start >= sectionStart + 60.0
            then Printed(snippets, head, i + 1, s.start,
                         before + HeaderBlock(s.start, s.start + 60.0, LastEnd(snippets)) + SnippetBlock(s))
            else Printed(snippets, head, i + 1, sectionStart, before + SnippetBlock(s))
  {
    var s := snippets[i];
    SectionStep(snippets, i);
    hide Items, SectionStart, OpensSection, HeaderBlock, SnippetBlock, LastEnd;
    var header, block, items := HeaderBlock(s.start, s.start + 60.0, LastEnd(snippets)), SnippetBlock(s),
      Items(snippets, i);
    ItemsNext(snippets, i);
    Regroup(head, items, header + block);
    Regroup(head + items, header, block);
    Regroup(head, items, block);
  }

  lemma {:induction false} ItemsNext(snippets: seq<Snippet>, i: nat)
    requires i < |snippets|
    ensures Items(snippets, i + 1) == Items(snippets, i) +
            if i > 0 && OpensSection(snippets, i)
            then HeaderBlock(snippets[i].start, snippets[i].start + 60.0, LastEnd(snippets)) + SnippetBlock(snippets[i])
            else SnippetBlock(snippets[i])
  {
    hide HeaderBlock, SnippetBlock, OpensSection;
    assert "" + SnippetBlock(snippets[i]) == SnippetBlock(snippets[i]);
  }

  lemma {:induction false} MarkdownHead(snippets: seq<Snippet>, title: string)
    requires snippets != []
    ensures Markdown(snippets, title)
         == TitleBlock(title) + (Header(snippets[0].start, snippets[0].start + 60.0, LastEnd(snippets)) + "\n\n")
            + Items(snippets, |snippets|)
  {
    hide TitleBlock, Header, LastEnd, Items;
  }

  lemma {:induction false} ItemsStart(snippets: seq<Snippet>, head: string)
    requires snippets != []
    ensures head + Items(snippets, 0) == head && SectionStart(snippets, 0) == snippets[0].start
  {
  }

  lemma {:induction false} SectionStep(snippets: seq<Snippet>, i: nat)
    requires i < |snippets|
    ensures i > 0 ==> (OpensSection(snippets, i) <==> snippets[i].start >= SectionStart(snippets, i - 1) + 60.0)
    ensures i == 0 ==> SectionStart(snippets, i) == snippets[i].start
    ensures i > 0 ==> SectionStart(snippets, i) ==
                      if OpensSection(snippets, i) then snippets[i].start else SectionStart(snippets, i - 1)
  {
  }

  /** Every snippet starts less than a minute after its section, whatever the order of the starts, and a new section
      starts a minute or more after the one before. Where the starts never decrease, no snippet starts before its
      section. */
  lemma {:induction false} SectionsCover(snippets: seq<Snippet>, i: nat)
    requires i < |snippets|
    ensures snippets[i].start < SectionStart(snippets, i) + 60.0
    ensures i > 0 && SectionStart(snippets, i) != SectionStart(snippets, i - 1) ==>
              SectionStart(snippets, i) >= SectionStart(snippets, i - 1) + 60.0
    ensures exists j :: 0 <= j <= i && snippets[j].start == SectionStart(snippets, i)
    ensures (forall j :: 0 < j <= i ==> snippets[j - 1].start <= snippets[j].start)
        ==> SectionStart(snippets, i) <= snippets[i].start
  {
    if i > 0 {
      SectionsCover(snippets, i - 1);
      if OpensSection(snippets, i) {
        assert snippets[i].start == SectionStart(snippets, i);
      }
    }
  }

  ghost function SectionLine(start: real, until: real): string {
    "## [" + FormatTimestamp(start) + " - " + FormatTimestamp(until) + "]"
  }

  ghost function TextLine(s: Snippet): string {
    "[" + FormatTimestamp(s.start) + "] " + Trim(s.text) + "\n"
  }

  /** What is printed for snippet `i`: its time in brackets and its text, and before it, where it opens a section, a
      header with the start and the end of the section, which is a minute later or the end of the last snippet. */
  ghost function PrintedFor(snippets: seq<Snippet>, i: nat): string
    requires i < |snippets|
  {
    var s, last := snippets[i], snippets[|snippets| - 1];
    var until := if s.start + 60.0 <= last.start + last.duration then s.start + 60.0 else last.start + last.duration;
    if i == 0 || OpensSection(snippets, i) then SectionLine(s.start, until) + "\n\n" + TextLine(s) else TextLine(s)
  }

  lemma {:induction false} ItemsFrom(snippets: seq<Snippet>, i: nat, n: nat) returns (after: string)
    requires i < n <= |snippets|
    ensures Items(snippets, n) == Items(snippets, i) + Item(snippets, i) + after
    decreases n
  {
    hide Item;
    if i == n - 1 {
      after := "";
      assert Items(snippets, n) + "" == Items(snippets, n);
    } else {
      var rest := ItemsFrom(snippets, i, n - 1);
      after := rest + Item(snippets, n - 1);
      assert Items(snippets, i) + Item(snippets, i) + rest + Item(snippets, n - 1)
          == Items(snippets, i) + Item(snippets, i) + (rest + Item(snippets, n - 1));
    }
  }

  lemma {:induction false} Spelled(start: real, last: real, s: Snippet)
    ensures HeaderLine(start, last) == SectionLine(start, if start + 60.0 <= last then start + 60.0 else last)
    ensures SnippetBlock(s) == TextLine(s)
  {
    hide FormatTimestamp, Trim;
    assert "## [" + (FormatTimestamp(start) + " - " + FormatTimestamp(Min(start + 60.0, last))) + "]"
        == "## [" + FormatTimestamp(start) + " - " + FormatTimestamp(Min(start + 60.0, last)) + "]";
  }

  lemma {:induction false} FirstSpelled(snippets: seq<Snippet>)
    requires snippets != []
    ensures Items(snippets, 0) == "" && Item(snippets, 0) == TextLine(snippets[0])
    ensures PrintedFor(snippets, 0)
         == HeaderLine(snippets[0].start, LastEnd(snippets)) + "\n\n" + TextLine(snippets[0])
  {
    Spelled(snippets[0].start, LastEnd(snippets), snippets[0]);
    hide SectionLine, TextLine, HeaderLine, SnippetBlock;
  }

  lemma {:induction false} LaterSpelled(snippets: seq<Snippet>, i: nat)
    requires 0 < i < |snippets|
    ensures Item(snippets, i)
         == if OpensSection(snippets, i) then "\n" + PrintedFor(snippets, i) else PrintedFor(snippets, i)
  {
    var start, last := snippets[i].start, LastEnd(snippets);
    Spelled(start, last, snippets[i]);
    BlockSpelled(start, last);
    hide SectionLine, TextLine, HeaderLine, HeaderBlock, SnippetBlock, OpensSection;
    var header := HeaderLine(start, last) + "\n\n";
    Grouped("\n", header, TextLine(snippets[i]), "");
  }

  lemma {:induction false} BlockSpelled(start: real, last: real)
    ensures HeaderBlock(start, start + 60.0, last) == "\n" + (HeaderLine(start, last) + "\n\n")
  {
    hide Header;
  }

  lemma {:induction false} Grouped(a: string, b: string, c: string, d: string)
    ensures a + b + c == a + (b + c)
    ensures a + (b + c + d) == a + b + c + d
    ensures a + b + ("" + c + d) == a + (b + c) + d
  {
  }

  lemma {:induction false} MarkdownOf(snippets: seq<Snippet>, title: string)
    requires snippets != []
    ensures Markdown(snippets, title)
         == TitleBlock(title) + (HeaderLine(snippets[0].start, LastEnd(snippets)) + "\n\n")
            + Items(snippets, |snippets|)
  {
  }

  /** Every snippet is printed, with its text and, where one opens, its section. */
  lemma {:induction false} SnippetIsPrinted(snippets: seq<Snippet>, title: string, i: nat)
    returns (before: string, after: string)
    requires i < |snippets|
    ensures Markdown(snippets, title) == before + PrintedFor(snippets, i) + after
  {
    hide *;
    after := ItemsFrom(snippets, i, |snippets|);
    MarkdownOf(snippets, title);
    var header := HeaderLine(snippets[0].start, LastEnd(snippets)) + "\n\n";
    var head, items, printed := TitleBlock(title) + header, Items(snippets, i), PrintedFor(snippets, i);
    if i == 0 {
      before := TitleBlock(title);
      FirstSpelled(snippets);
      Grouped(before, header, TextLine(snippets[0]), after);
    } else if OpensSection(snippets, i) {
      before := head + items + "\n";
      LaterSpelled(snippets, i);
      Grouped(head, items, "\n" + printed, after);
      Grouped(head + items, "\n", printed, after);
    } else {
      before := head + items;
      LaterSpelled(snippets, i);
      Grouped(head, items, printed, after);
    }
  }

  // --------------------------------------------------------------------------------------------
  // The title
  // --------------------------------------------------------------------------------------------

  /** A backslash makes the character behind it plain. */
  ghost function Unescaped(s: string): string {
    if s == "" then ""
    else if s[0] == '\\' && |s| > 1 then [s[1]] + Unescaped(s[2..])
    else [s[0]] + Unescaped(s[1..])
  }

  ghost function EscapedAll(s: string, cs: set<char>): string {
    if s == "" then "" else (if s[0] in cs then ['\\', s[0]] else [s[0]]) + EscapedAll(s[1..], cs)
  }

  lemma {:induction false} EscapedConcat(a: string, b: string, c: char)
    ensures Escaped(a + b, c) == Escaped(a, c) + Escaped(b, c)
  {
    if a == "" {
      assert a + b == b;
    } else {
      assert (a + b)[1..] == a[1..] + b;
      EscapedConcat(a[1..], b, c);
    }
  }

  lemma {:induction false} OneMoreEscaped(s: string, cs: set<char>, c: char)
    requires c !in cs && c != '\\'
    ensures Escaped(EscapedAll(s, cs), c) == EscapedAll(s, cs + {c})
  {
    if s != "" {
      var head := if s[0] in cs then ['\\', s[0]] else [s[0]];
      EscapedConcat(head, EscapedAll(s[1..], cs), c);
      OneMoreEscaped(s[1..], cs, c);
      assert head[1..] == "" || head[1..][1..] == "";
      assert Escaped(head, c) == if s[0] in cs + {c} then ['\\', s[0]] else [s[0]];
    }
  }

  lemma {:induction false} FirstEscaped(s: string)
    ensures Escaped(s, '\\') == EscapedAll(s, {'\\'})
  {
    if s != "" {
      FirstEscaped(s[1..]);
    }
  }

  lemma {:induction false} UnescapedAll(s: string, cs: set<char>)
    requires '\\' in cs
    ensures Unescaped(EscapedAll(s, cs)) == s
  {
    if s != "" {
      UnescapedAll(s[1..], cs);
      var e, rest := EscapedAll(s, cs), EscapedAll(s[1..], cs);
      if s[0] in cs {
        assert e[2..] == rest;
      } else {
        assert e[1..] == rest;
      }
    }
  }

  /** The printed title is the title, but for the backslashes that make its marks plain. */
  lemma {:induction false} TitleIsKept(title: string)
    ensures Unescaped(SafeTitle(title)) == title
  {
    FirstEscaped(title);
    OneMoreEscaped(title, {'\\'}, '#');
    OneMoreEscaped(title, {'\\', '#'}, '[');
    OneMoreEscaped(title, {'\\', '#', '['}, ']');
    OneMoreEscaped(title, {'\\', '#', '[', ']'}, '`');
    UnescapedAll(title, {'\\', '#', '[', ']', '`'});
    assert {'\\'} + {'#'} == {'\\', '#'} && {'\\', '#'} + {'['} == {'\\', '#', '['};
    assert {'\\', '#', '['} + {']'} == {'\\', '#', '[', ']'};
    assert {'\\', '#', '[', ']'} + {'`'} == {'\\', '#', '[', ']', '`'};
    hide Escaped, EscapedAll, Unescaped;
  }

  // --------------------------------------------------------------------------------------------
  // Reading
  // --------------------------------------------------------------------------------------------

  function IndexOf(s: string, c: char): (k: Option<nat>)
    ensures k.Some? ==> k.value < |s| && s[k.value] == c
  {
    if s == "" then None
    else if s[0] == c then Some(0)
    else match IndexOf(s[1..], c)
         case Some(k) => Some(k + 1)
         case None => None
  }

  /** `parse_timestamp_prefix`. */
  function ParsePrefix(parse: FloatParser, line: string): Option<real> {
    if line == "" || line[0] != '[' then None
    else
      match IndexOf(line[1..], ']')
      case None => None
      case Some(end) => ParseStamp(parse, line[1..][..end])
  }

  function ParseStamp(parse: FloatParser, stamp: string): Option<real> {
    match IndexOf(stamp, ':')
    case None => None
    case Some(colon) =>
      match parse(Trim(stamp[..colon]))
      case None => None
      case Some(mins) =>
        match parse(Trim(stamp[colon + 1..]))
        case None => None
        case Some(secs) => Some(mins * 60.0 + secs)
  }

  function Newline(c: char): bool { c == '\n' }

  function WithoutReturn(line: string): string {
    if line != "" && line[|line| - 1] == '\r' then line[..|line| - 1] else line
  }

  /** `str::lines`: a line ends with `\n` or `\r\n`, and an empty last line is no line. */
  function Lines(parts: seq<string>): seq<string>
    requires |parts| >= 1
  {
    if |parts| == 1 then (if parts[0] == "" then [] else parts)
    else [WithoutReturn(parts[0])] + Lines(parts[1..])
  }

  /** The stamps of the lines, in order. */
  function StampsOf(parse: FloatParser, lines: seq<string>): seq<real> {
    if lines == [] then []
    else
      StampOf(parse, lines[0]) + StampsOf(parse, lines[1..])
  }

  function StampOf(parse: FloatParser, line: string): seq<real> {
    match ParsePrefix(parse, Trim(line))
    case Some(t) => [t]
    case None => []
  }

  function Stamps(parse: FloatParser, content: string): seq<real> {
    StampsOf(parse, SplitOn(content, Newline))
  }

  /** The least and the greatest of the stamps, absent when there is none. */
  predicate IsRange(stamps: seq<real>, least: Option<real>, greatest: Option<real>) {
    && (stamps == [] ==> least.None? && greatest.None?)
    && (stamps != [] ==>
          && least.Some? && least.value in stamps && (forall t :: t in stamps ==> least.value <= t)
          && greatest.Some? && greatest.value in stamps && (forall t :: t in stamps ==> t <= greatest.value))
  }

  lemma {:induction false} TrimWithoutReturn(line: string)
    ensures Trim(WithoutReturn(line)) == Trim(line)
  {
    if line != "" && line[|line| - 1] == '\r' {
      var n := |line| - 1;
      assert line == line[..n] + "\r";
      TrimOfBoth(line[..n], "\r");
    }
  }

  lemma {:induction false} TrimOfBoth(s: string, pad: string)
    requires forall i :: 0 <= i < |pad| ==> IsWhitespace(pad[i])
    ensures Trim(s + pad) == Trim(s)
  {
    if s == "" {
      assert s + pad == pad && pad + "" == pad;
      TrimStartSkips(pad, "");
    } else if IsWhitespace(s[0]) {
      assert (s + pad)[1..] == s[1..] + pad;
      TrimOfBoth(s[1..], pad);
    } else {
      TrimEndSkips(s, pad);
    }
  }

  /** Neither the carriage returns nor the last empty line matter once the lines are trimmed. */
  lemma {:induction false} LinesKeepStamps(parse: FloatParser, parts: seq<string>)
    requires |parts| >= 1
    ensures StampsOf(parse, Lines(parts)) == StampsOf(parse, parts)
  {
    hide ParsePrefix;
    if |parts| == 1 {
      if parts[0] == "" {
        NoStamp(parse, "");
        hide Trim;
        assert parts[1..] == [];
      }
    } else {
      TrimWithoutReturn(parts[0]);
      LinesKeepStamps(parse, parts[1..]);
      hide Trim, WithoutReturn;
      var lines := Lines(parts);
      assert lines[1..] == Lines(parts[1..]) && lines[0] == WithoutReturn(parts[0]);
    }
  }

  lemma {:induction false} NoStamp(parse: FloatParser, line: string)
    requires Trim(line) == "" || Trim(line)[0] != '['
    ensures ParsePrefix(parse, Trim(line)) == None
  {
  }

  lemma {:induction false} NoLines(parse: FloatParser)
    ensures StampsOf(parse, []) == []
  {
  }

  lemma {:induction false} StampsFirst(parse: FloatParser, lines: seq<string>)
    requires lines != []
    ensures StampsOf(parse, lines) == StampOf(parse, lines[0]) + StampsOf(parse, lines[1..])
  {
    hide ParsePrefix, Trim;
  }

  lemma {:induction false} StampsSnoc(parse: FloatParser, lines: seq<string>, more: seq<string>)
    ensures StampsOf(parse, lines + more) == StampsOf(parse, lines) + StampsOf(parse, more)
  {
    hide *;
    if lines == [] {
      assert lines + more == more;
      NoLines(parse);
    } else {
      var all := lines + more;
      assert all[0] == lines[0] && all[1..] == lines[1..] + more;
      StampsFirst(parse, lines);
      StampsFirst(parse, all);
      StampsSnoc(parse, lines[1..], more);
      Regroup(StampOf(parse, lines[0]), StampsOf(parse, lines[1..]), StampsOf(parse, more));
    }
  }

  /** `extract_timestamp_range`. */
  method ExtractTimestampRange(parse: FloatParser, content: string)
    returns (minStart: Option<real>, maxEnd: Option<real>)
    ensures IsRange(Stamps(parse, content), minStart, maxEnd)
  {
    minStart, maxEnd := None, None;
    var lines := Lines(SplitOn(content, Newline));
    ghost var seen: seq<real> := [];
    LinesKeepStamps(parse, SplitOn(content, Newline));
    assert StampsOf(parse, lines[..0]) == [];
    assert StampsOf(parse, lines) == Stamps(parse, content);
    assert IsRange([], None, None);
    hide Trim, ParsePrefix, Lines, Stamps, StampsOf, IsRange;
    for i := 0 to |lines|
      invariant seen == StampsOf(parse, lines[..i])
      invariant IsRange(seen, minStart, maxEnd)
    {
      StampsStep(parse, lines, i);
      var stamp := ParsePrefix(parse, Trim(lines[i]));
      match stamp {
        case None =>
        case Some(ts) =>
          WidenRange(seen, minStart, maxEnd, ts);
          if minStart.None? || ts < minStart.value {
            minStart := Some(ts);
          }
          if maxEnd.None? || ts > maxEnd.value {
            maxEnd := Some(ts);
          }
          seen := seen + [ts];
      }
    }
    assert lines[..|lines|] == lines;
  }

  lemma {:induction false} StampsStep(parse: FloatParser, lines: seq<string>, i: nat)
    requires i < |lines|
    ensures StampsOf(parse, lines[..i + 1])
         == StampsOf(parse, lines[..i]) + match ParsePrefix(parse, Trim(lines[i])) case Some(t) => [t] case None => []
  {
    assert lines[..i + 1] == lines[..i] + [lines[i]];
    StampsSnoc(parse, lines[..i], [lines[i]]);
    hide ParsePrefix, Trim;
    assert [lines[i]][1..] == [];
  }

  lemma {:induction false} WidenRange(seen: seq<real>, least: Option<real>, greatest: Option<real>, t: real)
    requires IsRange(seen, least, greatest)
    ensures IsRange(seen + [t],
                    if least.None? || t < least.value then Some(t) else least,
                    if greatest.None? || t > greatest.value then Some(t) else greatest)
  {
    assert (seen + [t])[|seen|] == t;
    assert forall x :: x in seen + [t] <==> x in seen || x == t;
  }

  // --------------------------------------------------------------------------------------------
  // Reading what was printed
  // --------------------------------------------------------------------------------------------

  /** The parser reads a string of digits as the number it shows. */
  ghost predicate ReadsDigits(parse: FloatParser) {
    forall s: string :: s != "" && AllDigits(s) ==> parse(s) == Some(Value(s) as real)
  }

  lemma {:induction false} IndexAfter(plain: string, c: char, rest: string)
    requires forall i :: 0 <= i < |plain| ==> plain[i] != c
    ensures IndexOf(plain + [c] + rest, c) == Some(|plain|)
  {
    if plain != "" {
      assert (plain + [c] + rest)[1..] == plain[1..] + [c] + rest;
      IndexAfter(plain[1..], c, rest);
    }
  }

  lemma {:induction false} DigitsAreTrimmed(s: string)
    requires AllDigits(s)
    ensures Trim(s) == s
  {
  }

  lemma {:induction false} PairIsRead(parse: FloatParser, mins: string, secs: string)
    requires ReadsDigits(parse) && AllDigits(mins) && AllDigits(secs) && mins != "" && secs != ""
    ensures ParseStamp(parse, mins + ":" + secs) == Some((Value(mins) as real) * 60.0 + (Value(secs) as real))
  {
    var stamp := mins + ":" + secs;
    DigitsAreTrimmed(mins);
    DigitsAreTrimmed(secs);
    assert parse(mins) == Some(Value(mins) as real) && parse(secs) == Some(Value(secs) as real);
    assert forall i :: 0 <= i < |mins| ==> mins[i] != ':';
    hide AllDigits, ReadsDigits, Trim, IndexOf, Value;
    IndexAfter(mins, ':', secs);
    assert stamp == mins + [':'] + secs;
    assert stamp[..|mins|] == mins && stamp[|mins| + 1..] == secs;
  }

  /** A printed time reads back as its whole seconds. */
  lemma {:induction false} TimestampIsRead(parse: FloatParser, seconds: real)
    requires ReadsDigits(parse)
    ensures ParseStamp(parse, FormatTimestamp(seconds)) == Some(WholeSeconds(seconds) as real)
  {
    hide ReadsDigits, ParseStamp, WholeSeconds, Value;
    var whole := WholeSeconds(seconds);
    PairIsRead(parse, TwoDigits(whole / 60), TwoDigits(whole % 60));
    assert whole == whole / 60 * 60 + whole % 60;
  }

  lemma {:induction false} TimestampIsPlain(seconds: real)
    ensures forall i :: 0 <= i < |FormatTimestamp(seconds)| ==>
              IsDigit(FormatTimestamp(seconds)[i]) || FormatTimestamp(seconds)[i] == ':'
  {
  }

  lemma {:induction false} TrimEndKeepsHead(head: string, rest: string)
    requires head != "" && !IsWhitespace(head[|head| - 1])
    ensures TrimEnd(head + rest) == head + TrimEnd(rest)
    decreases |rest|
  {
    hide IsWhitespace;
    var s := head + rest;
    if rest == "" {
      assert s == head && head + "" == head;
    } else {
      var n := |rest| - 1;
      assert s[|s| - 1] == rest[n];
      if IsWhitespace(rest[n]) {
        assert s[..|s| - 1] == head + rest[..n];
        TrimEndKeepsHead(head, rest[..n]);
      }
    }
  }

  lemma {:induction false} TrimKeepsHead(head: string, rest: string)
    requires head != "" && !IsWhitespace(head[0]) && !IsWhitespace(head[|head| - 1])
    ensures Trim(head + rest) == head + TrimEnd(rest)
  {
    assert TrimStart(head + rest) == head + rest;
    hide IsWhitespace, TrimStart, TrimEnd;
    TrimEndKeepsHead(head, rest);
  }

  /** A line that starts with a printed time carries that time. */
  lemma {:induction false} StampIsRead(parse: FloatParser, seconds: real, rest: string)
    requires ReadsDigits(parse)
    ensures ParsePrefix(parse, Trim("[" + FormatTimestamp(seconds) + "]" + rest)) == Some(WholeSeconds(seconds) as real)
  {
    var stamp := FormatTimestamp(seconds);
    TimestampIsPlain(seconds);
    TimestampIsRead(parse, seconds);
    var head := "[" + stamp + "]";
    assert !IsWhitespace('[') && !IsWhitespace(']');
    assert forall i :: 0 <= i < |stamp| ==> stamp[i] != ']';
    hide *;
    TrimKeepsHead(head, rest);
    BracketIsRead(parse, stamp, TrimEnd(rest));
  }

  lemma {:induction false} BracketIsRead(parse: FloatParser, stamp: string, tail: string)
    requires forall i :: 0 <= i < |stamp| ==> stamp[i] != ']'
    ensures ParsePrefix(parse, "[" + stamp + "]" + tail) == ParseStamp(parse, stamp)
  {
    hide ParseStamp, IndexOf;
    var line := "[" + stamp + "]" + tail;
    var inner := stamp + [']'] + tail;
    assert line == ['['] + inner;
    assert line[1..] == inner;
    IndexAfter(stamp, ']', tail);
    assert inner[..|stamp|] == stamp;
  }

  /** The stamps of a text are those of its parts, where the parts meet at a line break. */
  lemma {:induction false} StampsJoined(parse: FloatParser, a: string, b: string)
    ensures Stamps(parse, a + "\n" + b) == Stamps(parse, a) + Stamps(parse, b)
  {
    SplitJoined(a, '\n', b, Newline);
    StampsSnoc(parse, SplitOn(a, Newline), SplitOn(b, Newline));
  }

  // The title

  /** Every opening bracket follows a backslash. */
  predicate Guarded(escaped: bool, s: string)
    decreases |s|
  {
    s == "" || ((s[0] == '[' ==> escaped) && Guarded(s[0] == '\\', s[1..]))
  }

  lemma {:induction false} GuardedWeaken(s: string)
    requires Guarded(false, s)
    ensures Guarded(true, s)
  {
  }

  lemma {:induction false} EscapingGuards(s: string)
    ensures Guarded(false, Escaped(s, '['))
  {
    if s != "" {
      var rest := Escaped(s[1..], '[');
      EscapingGuards(s[1..]);
      GuardedWeaken(rest);
      if s[0] == '[' {
        var t := ['\\', '['] + rest;
        assert t[1..] == ['['] + rest && t[1..][1..] == rest;
      } else {
        assert ([s[0]] + rest)[1..] == rest;
      }
    }
  }

  lemma {:induction false} EscapingKeepsGuard(escaped: bool, s: string, c: char)
    requires Guarded(escaped, s) && c != '[' && c != '\\'
    ensures Guarded(escaped, Escaped(s, c))
    decreases |s|
  {
    if s != "" {
      var rest := Escaped(s[1..], c);
      EscapingKeepsGuard(s[0] == '\\', s[1..], c);
      if s[0] == c {
        var t := ['\\', c] + rest;
        assert t[1..] == [c] + rest && t[1..][1..] == rest;
      } else {
        assert ([s[0]] + rest)[1..] == rest;
      }
    }
  }

  lemma {:induction false} GuardedLines(escaped: bool, s: string)
    requires Guarded(escaped, s)
    ensures var lines := SplitOn(s, Newline);
            Guarded(escaped, lines[0]) && forall i :: 1 <= i < |lines| ==> Guarded(false, lines[i])
    decreases |s|
  {
    if s != "" {
      GuardedLines(s[0] == '\\', s[1..]);
      var rest := SplitOn(s[1..], Newline);
      assert ([s[0]] + rest[0])[1..] == rest[0];
    }
  }

  lemma {:induction false} GuardedHasNoStamp(parse: FloatParser, line: string)
    requires Guarded(false, line)
    ensures ParsePrefix(parse, Trim(line)) == None
  {
    GuardedTrim(line);
  }

  lemma {:induction false} GuardedTrim(line: string)
    requires Guarded(false, line)
    ensures TrimStart(line) == "" || TrimStart(line)[0] != '['
  {
    if line != "" && IsWhitespace(line[0]) {
      GuardedTrim(line[1..]);
    }
  }

  lemma {:induction false} NoStamps(parse: FloatParser, lines: seq<string>)
    requires forall i :: 0 <= i < |lines| ==> ParsePrefix(parse, Trim(lines[i])) == None
    ensures StampsOf(parse, lines) == []
  {
    hide ParsePrefix, Trim;
    if lines != [] {
      NoStamps(parse, lines[1..]);
    }
  }

  lemma {:induction false} SafeTitleIsGuarded(title: string)
    ensures Guarded(false, "# " + SafeTitle(title))
  {
    var t := Escaped(Escaped(title, '\\'), '#');
    EscapingGuards(t);
    EscapingKeepsGuard(false, Escaped(t, '['), ']');
    EscapingKeepsGuard(false, Escaped(Escaped(t, '['), ']'), '`');
    var s := "# " + SafeTitle(title);
    assert s[1..] == " " + SafeTitle(title) && s[1..][1..] == SafeTitle(title);
  }

  /** No line of a title carries a stamp, whatever the title. */
  lemma {:induction false} TitleHasNoStamps(parse: FloatParser, title: string)
    ensures Stamps(parse, "# " + SafeTitle(title)) == []
  {
    var s := "# " + SafeTitle(title);
    SafeTitleIsGuarded(title);
    hide SafeTitle, Guarded, ParsePrefix, Trim;
    GuardedLines(false, s);
    var lines := SplitOn(s, Newline);
    forall i | 0 <= i < |lines| ensures ParsePrefix(parse, Trim(lines[i])) == None {
      GuardedHasNoStamp(parse, lines[i]);
    }
    NoStamps(parse, lines);
  }

  lemma {:induction false} EmptyHasNoStamps(parse: FloatParser)
    ensures Stamps(parse, "") == []
  {
    NoStamp(parse, "");
    assert SplitOn("", Newline) == [""] && [""][1..] == [];
  }

  lemma {:induction false} TitleBlockIsSkipped(parse: FloatParser, title: string, rest: string)
    ensures Stamps(parse, TitleBlock(title) + rest) == Stamps(parse, rest)
  {
    hide Stamps, SafeTitle;
    if title == "" {
      assert "" + rest == rest;
    } else {
      var line := "# " + SafeTitle(title);
      TitleHasNoStamps(parse, title);
      EmptyHasNoStamps(parse);
      StampsJoined(parse, line, "" + "\n" + rest);
      StampsJoined(parse, "", rest);
      assert TitleBlock(title) + rest == line + "\n" + ("" + "\n" + rest);
    }
  }

  lemma {:induction false} HeaderHasNoStamps(parse: FloatParser, start: real, last: real)
    ensures Stamps(parse, HeaderLine(start, last)) == []
  {
    var from, until := FormatTimestamp(start), FormatTimestamp(Min(start + 60.0, last));
    assert HeaderLine(start, last) == "## [" + (from + " - " + until) + "]";
    hide FormatTimestamp, Header, HeaderLine, Min;
    TimestampIsOneLine(start);
    TimestampIsOneLine(Min(start + 60.0, last));
    HeaderIsOneLine(from, until);
    HashHasNoStamps(parse, "## [" + (from + " - " + until) + "]");
  }

  predicate OneLine(s: string) {
    forall i :: 0 <= i < |s| ==> !Newline(s[i])
  }

  lemma {:induction false} TimestampIsOneLine(seconds: real)
    ensures OneLine(FormatTimestamp(seconds))
  {
    TimestampIsPlain(seconds);
    hide FormatTimestamp;
  }

  lemma {:induction false} OneLineConcat(a: string, b: string)
    requires OneLine(a) && OneLine(b)
    ensures OneLine(a + b)
  {
  }

  lemma {:induction false} HeaderIsOneLine(from: string, until: string)
    requires OneLine(from) && OneLine(until)
    ensures OneLine("## [" + (from + " - " + until) + "]")
  {
    assert OneLine("## [") && OneLine(" - ") && OneLine("]");
    hide OneLine;
    OneLineConcat(from, " - ");
    OneLineConcat(from + " - ", until);
    OneLineConcat("## [", from + " - " + until);
    OneLineConcat("## [" + (from + " - " + until), "]");
  }

  lemma {:induction false} HashHasNoStamps(parse: FloatParser, line: string)
    requires line != "" && line[0] == '#' && OneLine(line)
    ensures Stamps(parse, line) == []
  {
    SplitPiece(line, Newline);
    assert line == "#" + line[1..];
    TrimKeepsHead("#", line[1..]);
    NoStamp(parse, line);
    NoStamps(parse, [line]);
  }

  lemma {:induction false} HeaderIsSkipped(parse: FloatParser, start: real, last: real, rest: string)
    ensures Stamps(parse, HeaderLine(start, last) + "\n\n" + rest) == Stamps(parse, rest)
  {
    var line := HeaderLine(start, last);
    HeaderHasNoStamps(parse, start, last);
    EmptyHasNoStamps(parse);
    hide Stamps, HeaderLine;
    StampsJoined(parse, line, "" + "\n" + rest);
    StampsJoined(parse, "", rest);
    assert line + "\n\n" + rest == line + "\n" + ("" + "\n" + rest);
  }

  /** The stamps on the second and later lines of a snippet's own text. */
  function QuotedStamps(parse: FloatParser, s: Snippet): seq<real> {
    StampsOf(parse, SplitOn(Trim(s.text), Newline)[1..])
  }

  lemma {:induction false} FirstLine(head: string, text: string)
    requires forall i :: 0 <= i < |head| ==> !Newline(head[i])
    ensures SplitOn(head + text, Newline)[0] == head + SplitOn(text, Newline)[0]
    ensures SplitOn(head + text, Newline)[1..] == SplitOn(text, Newline)[1..]
  {
    if head == "" {
      assert head + text == text;
    } else {
      assert (head + text)[1..] == head[1..] + text;
      FirstLine(head[1..], text);
    }
  }

  lemma {:induction false} SnippetStamps(parse: FloatParser, s: Snippet)
    requires ReadsDigits(parse)
    ensures Stamps(parse, SnippetText(s)) == [WholeSeconds(s.start) as real] + QuotedStamps(parse, s)
  {
    var text := Trim(s.text);
    var stamp := FormatTimestamp(s.start);
    var head := "[" + stamp + "] ";
    TimestampIsPlain(s.start);
    hide ReadsDigits, WholeSeconds, FormatTimestamp, Trim, ParsePrefix;
    FirstLine(head, text);
    var first := SplitOn(text, Newline)[0];
    StampIsRead(parse, s.start, " " + first);
    assert head + first == "[" + stamp + "]" + (" " + first);
  }

  lemma {:induction false} ItemStamps(parse: FloatParser, snippets: seq<Snippet>, i: nat, rest: string)
    requires i < |snippets| && ReadsDigits(parse)
    ensures Stamps(parse, Item(snippets, i) + rest)
         == [WholeSeconds(snippets[i].start) as real] + QuotedStamps(parse, snippets[i]) + Stamps(parse, rest)
  {
    hide *;
    var s := snippets[i];
    var line := SnippetText(s) + "\n" + rest;
    SnippetStamps(parse, s);
    StampsJoined(parse, SnippetText(s), rest);
    ItemParts(snippets, i, rest);
    if i > 0 && OpensSection(snippets, i) {
      var below := HeaderLine(s.start, LastEnd(snippets)) + "\n\n" + line;
      HeaderIsSkipped(parse, s.start, LastEnd(snippets), line);
      EmptyHasNoStamps(parse);
      StampsJoined(parse, "", below);
    }
  }

  lemma {:induction false} ItemParts(snippets: seq<Snippet>, i: nat, rest: string)
    requires i < |snippets|
    ensures var line := SnippetText(snippets[i]) + "\n" + rest;
            Item(snippets, i) + rest ==
            if i > 0 && OpensSection(snippets, i)
            then "" + "\n" + (HeaderLine(snippets[i].start, LastEnd(snippets)) + "\n\n" + line) else line
  {
    hide SnippetText, Header, LastEnd, OpensSection;
    RegroupItem(HeaderLine(snippets[i].start, LastEnd(snippets)), SnippetText(snippets[i]), rest);
  }

  lemma {:induction false} RegroupItem(header: string, line: string, rest: string)
    ensures "" + (line + "\n") + rest == line + "\n" + rest
    ensures "\n" + header + "\n\n" + (line + "\n") + rest == "" + "\n" + (header + "\n\n" + (line + "\n" + rest))
  {
  }

  /** Each snippet's whole-second start, followed by the stamps that its own text quotes on later lines. */
  function Expected(parse: FloatParser, snippets: seq<Snippet>): seq<real> {
    if snippets == [] then []
    else
      Expected(parse, snippets[..|snippets| - 1])
      + ([WholeSeconds(snippets[|snippets| - 1].start) as real] + QuotedStamps(parse, snippets[|snippets| - 1]))
  }

  lemma {:induction false} ItemsStamps(parse: FloatParser, snippets: seq<Snippet>, n: nat, rest: string)
    requires n <= |snippets| && ReadsDigits(parse)
    ensures Stamps(parse, Items(snippets, n) + rest) == Expected(parse, snippets[..n]) + Stamps(parse, rest)
  {
    hide ReadsDigits, WholeSeconds, QuotedStamps, Stamps, Item;
    if n == 0 {
      assert "" + rest == rest;
    } else {
      var item := Item(snippets, n - 1);
      ItemsStamps(parse, snippets, n - 1, item + rest);
      ItemStamps(parse, snippets, n - 1, rest);
      assert Items(snippets, n) + rest == Items(snippets, n - 1) + (item + rest);
      assert snippets[..n][..n - 1] == snippets[..n - 1];
    }
  }

  /** The reader sees every snippet's start, in order, and what the snippets' own later lines quote; the
      title and the section headers add nothing. */
  lemma {:induction false} TranscriptStamps(parse: FloatParser, snippets: seq<Snippet>, title: string)
    requires ReadsDigits(parse)
    ensures Stamps(parse, Markdown(snippets, title)) == Expected(parse, snippets)
  {
    if snippets == [] {
      EmptyHasNoStamps(parse);
    } else {
      var start, last, n := snippets[0].start, LastEnd(snippets), |snippets|;
      var body := Items(snippets, n);
      var sections := HeaderLine(start, last) + "\n\n" + body;
      assert snippets[..n] == snippets;
      MarkdownParts(snippets, title);
      hide *;
      EmptyHasNoStamps(parse);
      TitleBlockIsSkipped(parse, title, sections);
      HeaderIsSkipped(parse, start, last, body);
      ItemsStamps(parse, snippets, n, "");
      NothingAfter(body);
    }
  }

  lemma {:induction false} NothingAfter(s: string)
    ensures s + "" == s
  {
  }

  lemma {:induction false} MarkdownParts(snippets: seq<Snippet>, title: string)
    requires snippets != []
    ensures Markdown(snippets, title)
         == TitleBlock(title)
            + (HeaderLine(snippets[0].start, LastEnd(snippets)) + "\n\n" + Items(snippets, |snippets|))
  {
    hide TitleBlock, HeaderLine, LastEnd, Items;
    Regroup(TitleBlock(title), HeaderLine(snippets[0].start, LastEnd(snippets)) + "\n\n", Items(snippets, |snippets|));
  }

  // --------------------------------------------------------------------------------------------
  // When the range is that of the starts
  // --------------------------------------------------------------------------------------------

  function Starts(snippets: seq<Snippet>): seq<real> {
    seq(|snippets|, i requires 0 <= i < |snippets| => WholeSeconds(snippets[i].start) as real)
  }

  ghost predicate Within(stamps: seq<real>, low: real, high: real) {
    forall t :: t in stamps ==> low <= t <= high
  }

  ghost predicate QuotesWithin(parse: FloatParser, snippets: seq<Snippet>, low: real, high: real) {
    forall i :: 0 <= i < |snippets| ==> Within(QuotedStamps(parse, snippets[i]), low, high)
  }

  lemma {:induction false} ExpectedMembers(parse: FloatParser, snippets: seq<Snippet>, t: real)
    ensures t in Expected(parse, snippets) <==>
              t in Starts(snippets) || Quoted(parse, snippets, t)
  {
    hide *;
    if snippets == [] {
      NoMembers(parse, t);
    } else {
      var n := |snippets| - 1;
      var whole := WholeSeconds(snippets[n].start) as real;
      var quoted := QuotedStamps(parse, snippets[n]);
      ExpectedMembers(parse, snippets[..n], t);
      LastStart(snippets);
      LastExpected(parse, snippets);
      MemberOf(t, Expected(parse, snippets[..n]), whole, quoted);
      MemberOf(t, Starts(snippets[..n]), whole, []);
      QuotedBySome(parse, snippets, t);
    }
  }

  lemma {:induction false} NoMembers(parse: FloatParser, t: real)
    ensures Expected(parse, []) == [] && Starts([]) == [] && !Quoted(parse, [], t)
  {
  }

  lemma {:induction false} LastStart(snippets: seq<Snippet>)
    requires snippets != []
    ensures Starts(snippets)
         == Starts(snippets[..|snippets| - 1]) + [WholeSeconds(snippets[|snippets| - 1].start) as real]
  {
  }

  lemma {:induction false} LastExpected(parse: FloatParser, snippets: seq<Snippet>)
    requires snippets != []
    ensures var n := |snippets| - 1;
            Expected(parse, snippets)
            == Expected(parse, snippets[..n])
               + ([WholeSeconds(snippets[n].start) as real] + QuotedStamps(parse, snippets[n]))
  {
    hide WholeSeconds, QuotedStamps;
  }

  lemma {:induction false} MemberOf<T>(t: T, before: seq<T>, x: T, after: seq<T>)
    ensures t in before + ([x] + after) <==> t in before || t == x || t in after
    ensures t in before + [x] <==> t in before || t == x
  {
  }

  ghost predicate Quoted(parse: FloatParser, snippets: seq<Snippet>, t: real) {
    exists i :: 0 <= i < |snippets| && t in QuotedStamps(parse, snippets[i])
  }

  lemma {:induction false} QuotedBySome(parse: FloatParser, snippets: seq<Snippet>, t: real)
    requires snippets != []
    ensures var n := |snippets| - 1;
            Quoted(parse, snippets, t) <==> Quoted(parse, snippets[..n], t) || t in QuotedStamps(parse, snippets[n])
  {
    hide QuotedStamps;
    var n := |snippets| - 1;
    if Quoted(parse, snippets, t) {
      var i :| 0 <= i < |snippets| && t in QuotedStamps(parse, snippets[i]);
      if i < n {
        assert snippets[..n][i] == snippets[i];
      }
    }
    if Quoted(parse, snippets[..n], t) {
      var i :| 0 <= i < n && t in QuotedStamps(parse, snippets[..n][i]);
      assert snippets[..n][i] == snippets[i];
    }
  }

  /** The range of a printed transcript is that of its whole-second starts exactly when no later line of a
      snippet's text quotes a time outside it. */
  lemma {:induction false} RangeIsThatOfTheStarts(parse: FloatParser, snippets: seq<Snippet>, title: string,
                                                  least: Option<real>, greatest: Option<real>,
                                                  low: Option<real>, high: Option<real>)
    requires ReadsDigits(parse) && snippets != []
    requires IsRange(Stamps(parse, Markdown(snippets, title)), least, greatest)
    requires IsRange(Starts(snippets), low, high)
    ensures least == low && greatest == high <==> QuotesWithin(parse, snippets, low.value, high.value)
  {
    assert |Starts(snippets)| == |snippets|;
    hide *;
    TranscriptStamps(parse, snippets, title);
    RangesAgree(parse, snippets, least, greatest, low, high);
  }

  lemma {:induction false} RangesAgree(parse: FloatParser, snippets: seq<Snippet>,
                                       least: Option<real>, greatest: Option<real>, low: Option<real>,
                                         high: Option<real>)
    requires Starts(snippets) != []
    requires IsRange(Expected(parse, snippets), least, greatest) && IsRange(Starts(snippets), low, high)
    ensures least == low && greatest == high <==> QuotesWithin(parse, snippets, low.value, high.value)
  {
    hide Expected, Starts, QuotedStamps, Quoted, QuotesWithin;
    forall t ensures t in Expected(parse, snippets) <==> t in Starts(snippets) || Quoted(parse, snippets, t) {
      ExpectedMembers(parse, snippets, t);
    }
    var first := Starts(snippets)[0];
    assert first in Starts(snippets);
    QuotesBounded(parse, snippets, low.value, high.value);
  }

  lemma {:induction false} QuotesBounded(parse: FloatParser, snippets: seq<Snippet>, low: real, high: real)
    ensures QuotesWithin(parse, snippets, low, high) <==> forall t :: Quoted(parse, snippets, t) ==> low <= t <= high
  {
    hide QuotedStamps;
    if forall t :: Quoted(parse, snippets, t) ==> low <= t <= high {
      forall i | 0 <= i < |snippets| ensures Within(QuotedStamps(parse, snippets[i]), low, high) {
        forall t | t in QuotedStamps(parse, snippets[i]) ensures low <= t <= high {
          assert Quoted(parse, snippets, t);
        }
      }
    }
  }

  lemma {:induction false} SingleLineQuotesNothing(parse: FloatParser, s: Snippet)
    requires forall i :: 0 <= i < |Trim(s.text)| ==> !Newline(Trim(s.text)[i])
    ensures QuotedStamps(parse, s) == []
  {
    SplitPiece(Trim(s.text), Newline);
  }

  /** A snippet whose second line looks like a stamp moves the range. */
  lemma {:induction false} QuotedStampCounts(parse: FloatParser, seconds: real)
    requires ReadsDigits(parse) && seconds >= 1.0
    ensures var s := Snippet("a\n[" + FormatTimestamp(seconds) + "] b", 0.0, 1.0);
            QuotedStamps(parse, s) == [WholeSeconds(seconds) as real]
            && !QuotesWithin(parse, [s], 0.0, 0.0) && IsRange(Starts([s]), Some(0.0), Some(0.0))
  {
    hide *;
    var line := "[" + FormatTimestamp(seconds) + "]" + " b";
    var s := Snippet("a\n[" + FormatTimestamp(seconds) + "] b", 0.0, 1.0);
    QuotingText(FormatTimestamp(seconds));
    TrimOfTrimmed(s.text);
    LineHasNoNewline(seconds);
    StampIsRead(parse, seconds, " b");
    NoNewline("a", 'a');
    SecondLine("a", line);
    OneStamp(parse, line);
    QuotedIs(parse, s);
    StartOfOne(s);
    QuoteOutside(parse, s, seconds);
  }

  lemma {:induction false} QuotingText(stamp: string)
    ensures "a\n[" + stamp + "] b" == "a" + "\n" + ("[" + stamp + "]" + " b")
    ensures IsTrimmed("a\n[" + stamp + "] b")
  {
  }

  lemma {:induction false} LineHasNoNewline(seconds: real)
    ensures var line := "[" + FormatTimestamp(seconds) + "]" + " b";
            forall i :: 0 <= i < |line| ==> !Newline(line[i])
  {
    TimestampIsPlain(seconds);
    hide FormatTimestamp;
  }

  lemma {:induction false} NoNewline(s: string, c: char)
    requires s == [c] && c != '\n'
    ensures forall i :: 0 <= i < |s| ==> !Newline(s[i])
  {
  }

  lemma {:induction false} QuotedIs(parse: FloatParser, s: Snippet)
    ensures QuotedStamps(parse, s) == StampsOf(parse, SplitOn(Trim(s.text), Newline)[1..])
  {
  }

  lemma {:induction false} OneStamp(parse: FloatParser, line: string)
    ensures StampsOf(parse, [line]) == match ParsePrefix(parse, Trim(line)) case Some(t) => [t] case None => []
  {
    hide ParsePrefix, Trim;
    assert [line][1..] == [];
  }

  lemma {:induction false} StartOfOne(s: Snippet)
    requires s.start == 0.0
    ensures IsRange(Starts([s]), Some(0.0), Some(0.0))
  {
    assert Starts([s]) == [0.0];
  }

  lemma {:induction false} QuoteOutside(parse: FloatParser, s: Snippet, seconds: real)
    requires seconds >= 1.0 && QuotedStamps(parse, s) == [WholeSeconds(seconds) as real]
    ensures !QuotesWithin(parse, [s], 0.0, 0.0)
  {
    hide QuotedStamps;
    assert WholeSeconds(seconds) >= 1;
    assert [s][0] == s && (WholeSeconds(seconds) as real) in QuotedStamps(parse, s);
  }

  lemma {:induction false} SecondLine(first: string, second: string)
    requires forall i :: 0 <= i < |first| ==> !Newline(first[i])
    requires forall i :: 0 <= i < |second| ==> !Newline(second[i])
    ensures SplitOn(first + "\n" + second, Newline)[1..] == [second]
  {
    SplitJoined(first, '\n', second, Newline);
    SplitPiece(first, Newline);
    SplitPiece(second, Newline);
  }
}
