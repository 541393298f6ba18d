/** Retrieved evidence in and out of the prompt: the renderer of `services/rag/search/formatting.rs`, and
    the reader of `core/providers.rs` that the offline provider answers from. */
module PromptSources {
  import opened Wrappers
  import opened Decimal
  import opened Sequences
  import opened Text

  // --------------------------------------------------------------------------------------------
  // Searching and replacing
  // --------------------------------------------------------------------------------------------

  /** `str::find`. */
  function Find(s: string, pat: string): (r: Option<nat>)
    ensures r.Some? ==> r.value + |pat| <= |s| && s[r.value..r.value + |pat|] == pat
  {
    if StartsWith(s, pat) then Some(0)
    else if s == "" then None
    else match Find(s[1..], pat)
         case Some(k) => Some(k + 1)
         case None => None
  }

  /** `str::replace`: from left to right, without overlaps. */
  function Replace(s: string, pat: string, by_: string): string
    requires pat != ""
    decreases |s|
  {
    if s == "" then ""
    else if StartsWith(s, pat) then by_ + Replace(s[|pat|..], pat, by_)
    else [s[0]] + Replace(s[1..], pat, by_)
  }

  // --------------------------------------------------------------------------------------------
  // Escaping
  // --------------------------------------------------------------------------------------------

  /** The five predefined entities of XML 1.0, section 4.6, numbered in the order they are undone. */
  function EntityNumber(c: char): (k: nat)
    ensures k <= 5
  {
    if c == '<' then 1 else if c == '>' then 2 else if c == '"' then 3 else if c == '\'' then 4
    else if c == '&' then 5 else 0
  }

  function Entity(k: nat): (e: string)
    requires 1 <= k <= 5
    ensures |e| >= 4 && e[0] == '&' && e[|e| - 1] == ';'
    ensures forall i :: 1 <= i < |e| ==> e[i] != '&' && e[i] != '<'
  {
    if k == 1 then "&lt;" else if k == 2 then "&gt;" else if k == 3 then "&quot;" else if k == 4 then "&apos;"
    else "&amp;"
  }

  function Character(k: nat): (c: char)
    requires 1 <= k <= 5
    ensures EntityNumber(c) == k
  {
    if k == 1 then '<' else if k == 2 then '>' else if k == 3 then '"' else if k == 4 then '\'' else '&'
  }

  /** The text escaped, except for the first `undone` entities. */
  function EscapeAfter(s: string, undone: nat): string {
    if s == "" then ""
    else (if EntityNumber(s[0]) > undone then Entity(EntityNumber(s[0])) else [s[0]]) + EscapeAfter(s[1..], undone)
  }

  function Escape(s: string): string {
    EscapeAfter(s, 0)
  }

  lemma {:induction false} EscapeConcat(a: string, b: string, undone: nat)
    ensures EscapeAfter(a + b, undone) == EscapeAfter(a, undone) + EscapeAfter(b, undone)
  {
    if a == "" {
      assert a + b == b;
    } else {
      assert (a + b)[1..] == a[1..] + b;
      EscapeConcat(a[1..], b, undone);
    }
  }

  lemma {:induction false} PlainIsUnescaped(s: string)
    requires forall i :: 0 <= i < |s| ==> EntityNumber(s[i]) == 0
    ensures Escape(s) == s
  {
    if s != "" {
      PlainIsUnescaped(s[1..]);
    }
  }

  lemma {:induction false} EscapeRun(s: string, copied: nat, offset: nat)
    requires copied <= offset <= |s|
    requires forall i :: copied <= i < offset ==> EntityNumber(s[i]) == 0
    ensures Escape(s[..offset]) == Escape(s[..copied]) + s[copied..offset]
  {
    PlainIsUnescaped(s[copied..offset]);
    hide EscapeAfter;
    EscapeConcat(s[..copied], s[copied..offset], 0);
    assert s[..copied] + s[copied..offset] == s[..offset];
  }

  lemma {:induction false} EscapeNext(s: string, offset: nat)
    requires offset < |s| && EntityNumber(s[offset]) > 0
    ensures Escape(s[..offset + 1]) == Escape(s[..offset]) + Entity(EntityNumber(s[offset]))
  {
    EscapeOne(s[offset]);
    hide EscapeAfter, Entity;
    EscapeConcat(s[..offset], [s[offset]], 0);
    assert s[..offset] + [s[offset]] == s[..offset + 1];
  }

  lemma {:induction false} EscapeOne(c: char)
    ensures Escape([c]) == if EntityNumber(c) > 0 then Entity(EntityNumber(c)) else [c]
  {
    assert EscapeAfter([c][1..], 0) == "";
  }

  /** `escape_into`: copies the runs between the characters it replaces. */
  method EscapeInto(s: string) returns (out: string)
    ensures out == Escape(s)
  {
    out := "";
    var copied := 0;
    assert Escape(s[..0]) == "";
    hide Escape, Entity, EntityNumber;
    for offset := 0 to |s|
      invariant copied <= offset
      invariant out == Escape(s[..copied])
      invariant forall i :: copied <= i < offset ==> EntityNumber(s[i]) == 0
    {
      var k := EntityNumber(s[offset]);
      if k > 0 {
        EscapeRun(s, copied, offset);
        EscapeNext(s, offset);
        out := out + s[copied..offset] + Entity(k);
        copied := offset + 1;
      }
    }
    EscapeRun(s, copied, |s|);
    assert s[..|s|] == s && s[copied..|s|] == s[copied..];
    out := out + s[copied..];
  }

  /** The five replacements, the ampersand last. */
  function Unescape(s: string): string {
    var s := Replace(s, "&lt;", "<");
    var s := Replace(s, "&gt;", ">");
    var s := Replace(s, "&quot;", "\"");
    var s := Replace(s, "&apos;", "'");
    Replace(s, "&amp;", "&")
  }

  /** Text in which the pattern cannot start is copied. */
  lemma {:induction false} ReplaceSkips(plain: string, rest: string, pat: string, by_: string)
    requires pat != "" && forall i :: 0 <= i < |plain| ==> plain[i] != pat[0]
    ensures Replace(plain + rest, pat, by_) == plain + Replace(rest, pat, by_)
  {
    if plain == "" {
      assert plain + rest == rest;
    } else {
      var s := plain + rest;
      StartsAgree(s, pat, 0);
      assert s[1..] == plain[1..] + rest;
      ReplaceSkips(plain[1..], rest, pat, by_);
    }
  }

  lemma {:induction false} EntitiesDiffer(k: nat, l: nat, rest: string)
    requires 1 <= k <= 5 && 1 <= l <= 5 && k != l
    ensures !StartsWith(Entity(k) + rest, Entity(l))
  {
    var s := Entity(k) + rest;
    assert s[1] == Entity(k)[1] && s[2] == Entity(k)[2];
    StartsAgree(s, Entity(l), 1);
    StartsAgree(s, Entity(l), 2);
  }

  lemma {:induction false} ReplaceOther(l: nat, k: nat, rest: string)
    requires 1 <= k <= 5 && 1 <= l <= 5 && k != l
    ensures Replace(Entity(l) + rest, Entity(k), [Character(k)])
         == Entity(l) + Replace(rest, Entity(k), [Character(k)])
  {
    EntitiesDiffer(l, k, rest);
    var e, f := Entity(k), Entity(l);
    hide Entity;
    var t := f + rest;
    assert t[1..] == f[1..] + rest && t[0] == f[0];
    ReplaceSkips(f[1..], rest, e, [Character(k)]);
    assert f == [f[0]] + f[1..];
  }

  lemma {:induction false} ReplaceSame(k: nat, rest: string)
    requires 1 <= k <= 5
    ensures Replace(Entity(k) + rest, Entity(k), [Character(k)])
         == [Character(k)] + Replace(rest, Entity(k), [Character(k)])
  {
    StartsPrefix(Entity(k), rest);
    hide Entity;
  }

  /** One replacement undoes one entity and touches nothing else. */
  lemma {:induction false} UndoesOne(s: string, k: nat)
    requires 1 <= k <= 5
    ensures Replace(EscapeAfter(s, k - 1), Entity(k), [Character(k)]) == EscapeAfter(s, k)
  {
    if s != "" {
      UndoesOne(s[1..], k);
      UndoesHead(s[0], EscapeAfter(s[1..], k - 1), k);
    }
  }

  lemma {:induction false} UndoesHead(c: char, rest: string, k: nat)
    requires 1 <= k <= 5
    ensures Replace((if EntityNumber(c) > k - 1 then Entity(EntityNumber(c)) else [c]) + rest, Entity(k),
                    [Character(k)])
         == (if EntityNumber(c) > k then Entity(EntityNumber(c)) else [c]) + Replace(rest, Entity(k), [Character(k)])
  {
    var l := EntityNumber(c);
    if l == k {
      assert c == Character(k);
      ReplaceSame(k, rest);
    } else if l > k {
      ReplaceOther(l, k, rest);
    } else {
      assert c != '&';
      ReplaceSkips([c], rest, Entity(k), [Character(k)]);
    }
  }

  lemma {:induction false} NothingLeftToUndo(s: string)
    ensures EscapeAfter(s, 5) == s
  {
    if s != "" {
      NothingLeftToUndo(s[1..]);
    }
  }

  /** Undoing the entities one after the other, the ampersand last, inverts escaping for every text. */
  lemma {:induction false} UnescapeInvertsEscape(s: string)
    ensures Unescape(Escape(s)) == s
  {
    hide Replace, EscapeAfter;
    UndoesOne(s, 1);
    UndoesOne(s, 2);
    UndoesOne(s, 3);
    UndoesOne(s, 4);
    UndoesOne(s, 5);
    NothingLeftToUndo(s);
  }

  lemma {:induction false} EscapedHasNoBracket(s: string)
    ensures forall i :: 0 <= i < |Escape(s)| ==> Escape(s)[i] != '<'
  {
    if s != "" {
      EscapedHasNoBracket(s[1..]);
      EscapeOne(s[0]);
      assert s == [s[0]] + s[1..];
      EscapeConcat([s[0]], s[1..], 0);
      var head, rest := Escape([s[0]]), Escape(s[1..]);
      assert forall i :: 0 <= i < |head| ==> head[i] != '<';
      hide EscapeAfter, Entity;
      assert Escape(s) == head + rest;
    }
  }

  lemma {:induction false} JoinedEnds(a: string, b: string, c: string, d: string)
    requires a != "" && d != "" && a + b == c + d
    ensures (a + b)[0] == a[0] && (a + b)[|a + b| - 1] == d[|d| - 1]
  {
    assert (c + d)[|c + d| - 1] == d[|d| - 1];
  }

  /** The first and the last character of escaped text are no white space where those of the text are not. */
  lemma {:induction false} EscapedEnd(c: char)
    requires !IsWhitespace(c)
    ensures Escape([c]) != "" && !IsWhitespace(Escape([c])[0]) && !IsWhitespace(Escape([c])[|Escape([c])| - 1])
  {
    EscapeOne(c);
    hide EscapeAfter;
  }

  lemma {:induction false} EscapedStaysTrimmed(s: string)
    requires IsTrimmed(s)
    ensures IsTrimmed(Escape(s))
  {
    if s != "" {
      hide EscapeAfter, IsWhitespace;
      var n := |s| - 1;
      var first, last := Escape([s[0]]), Escape([s[n]]);
      EscapedEnd(s[0]);
      EscapedEnd(s[n]);
      assert s == s[..n] + [s[n]] && s == [s[0]] + s[1..];
      EscapeConcat(s[..n], [s[n]], 0);
      EscapeConcat([s[0]], s[1..], 0);
      JoinedEnds(first, Escape(s[1..]), Escape(s[..n]), last);
    }
  }

  // --------------------------------------------------------------------------------------------
  // Reading the prompt
  // --------------------------------------------------------------------------------------------

  function ContentOpen(): (tag: string) ensures tag != "" { "<content>" }

  function ContentClose(): (tag: string) ensures tag != "" { "</content>" }

  function PolicyClose(): string { "</data_policy>" }

  /** The evidence in the text: each opened and closed body, trimmed and unescaped. An unclosed one ends the
      search. */
  function Contents(text: string): seq<string>
    decreases |text|
  {
    match Find(text, ContentOpen())
    case None => []
    case Some(start) => Body(text[start + |ContentOpen()|..])
  }

  function Body(text: string): seq<string>
    decreases |text|
  {
    match Find(text, ContentClose())
    case None => []
    case Some(end) => [Unescape(Trim(text[..end]))] + Contents(text[end + |ContentClose()|..])
  }

  function SourceTexts(prompt: string): seq<string> {
    match Find(prompt, PolicyClose())
    case None => Contents(prompt)
    case Some(start) => Contents(prompt[start + |PolicyClose()|..])
  }

  /** Only what follows the first opening tag matters. */
  lemma {:induction false} ContentsFrom(text: string)
    ensures match Find(text, ContentOpen())
            case None => Contents(text) == []
            case Some(k) => Contents(text) == Body(text[k + |ContentOpen()|..])
  {
    hide Find, Unescape, Trim;
  }

  lemma {:induction false} ContentsAt(prompt: string, cursor: nat)
    requires cursor <= |prompt|
    ensures match Find(prompt[cursor..], ContentOpen())
            case None => Contents(prompt[cursor..]) == []
            case Some(open) =>
              var start := cursor + open + |ContentOpen()|;
              match Find(prompt[start..], ContentClose())
              case None => Contents(prompt[cursor..]) == []
              case Some(close) =>
                Contents(prompt[cursor..])
                == [Unescape(Trim(prompt[start..start + close]))] + Contents(prompt[start + close + |ContentClose()|..])
  {
    hide *;
    ContentsFrom(prompt[cursor..]);
    var open := Find(prompt[cursor..], ContentOpen());
    if open.Some? {
      var start := cursor + open.value + |ContentOpen()|;
      assert prompt[cursor..][open.value + |ContentOpen()|..] == prompt[start..];
      BodyFrom(prompt[start..]);
      var close := Find(prompt[start..], ContentClose());
      if close.Some? {
        assert prompt[start..][..close.value] == prompt[start..start + close.value];
        assert prompt[start..][close.value + |ContentClose()|..] == prompt[start + close.value + |ContentClose()|..];
      }
    }
  }

  lemma {:induction false} BodyFrom(text: string)
    ensures match Find(text, ContentClose())
            case None => Body(text) == []
            case Some(k) => Body(text) == [Unescape(Trim(text[..k]))] + Contents(text[k + |ContentClose()|..])
  {
    hide Find, Unescape, Trim;
  }

  lemma {:induction false} SourcesFrom(prompt: string)
    ensures match Find(prompt, PolicyClose())
            case None => SourceTexts(prompt) == Contents(prompt[0..])
            case Some(k) => SourceTexts(prompt) == Contents(prompt[k + |PolicyClose()|..])
  {
    hide Find, Contents;
    assert prompt[0..] == prompt;
  }

  /** `source_texts`. */
  method ReadSourceTexts(prompt: string) returns (chunks: seq<string>)
    ensures chunks == SourceTexts(prompt)
  {
    hide *;
    SourcesFrom(prompt);
    var cursor := 0;
    var policy := Find(prompt, PolicyClose());
    if policy.Some? {
      cursor := policy.value + |PolicyClose()|;
    }
    chunks := [];
    while true
      invariant cursor <= |prompt|
      invariant chunks + Contents(prompt[cursor..]) == SourceTexts(prompt)
      decreases |prompt| - cursor
    {
      ContentsAt(prompt, cursor);
      var relativeOpen := Find(prompt[cursor..], ContentOpen());
      if relativeOpen.None? {
        break;
      }
      var start := cursor + relativeOpen.value + |ContentOpen()|;
      var relativeEnd := Find(prompt[start..], ContentClose());
      if relativeEnd.None? {
        break;
      }
      var end := start + relativeEnd.value;
      chunks := chunks + [Unescape(Trim(prompt[start..end]))];
      cursor := end + |ContentClose()|;
    }
  }

  // --------------------------------------------------------------------------------------------
  // Writing the prompt
  // --------------------------------------------------------------------------------------------

  /** A retrieved passage; `body` is the parent passage where there is one. */
  datatype Evidence = Evidence(sourceId: string, title: string, page: Option<nat>, body: string)

  function Page(page: Option<nat>): string {
    match page case Some(p) => " page=\"" + Show(p) + "\"" case None => ""
  }

  function Tag(index: nat, e: Evidence): string {
    "<source index=\"" + Show(index) + "\"" + (" source_id=\"" + Escape(e.sourceId) + "\"")
    + (" title=\"" + Escape(e.title) + "\"") + Page(e.page) + ">\n"
  }

  function EntryTail(): string { "\n</source>\n\n" }

  function RegionOpen(): string { "<untrusted_source_data>\n" }

  function RegionClose(): string { "</untrusted_source_data>" }

  /** `write_entry`. */
  function Entry(index: nat, e: Evidence): string {
    Tag(index, e) + (ContentOpen() + ("\n" + Escape(Trim(e.body)) + "\n") + (ContentClose() + EntryTail()))
  }

  function Entries(index: nat, results: seq<Evidence>): string
    decreases |results|
  {
    if results == [] then "" else Entry(index, results[0]) + Entries(index + 1, results[1..])
  }

  /** `format_context_for_llm`. */
  function FormatContext(results: seq<Evidence>): string {
    if results == [] then ""
    else RegionOpen() + Entries(1, results) + RegionClose()
  }

  /** `assemble`: the policy, then every block that is not empty. */
  function Blocks(blocks: seq<string>): string {
    if blocks == [] then ""
    else (if blocks[0] == "" then "" else "\n\n" + blocks[0]) + Blocks(blocks[1..])
  }

  function Assemble(policy: string, blocks: seq<string>): string {
    policy + Blocks(blocks)
  }

  function Bodies(results: seq<Evidence>): seq<string> {
    if results == [] then [] else [Trim(results[0].body)] + Bodies(results[1..])
  }

  // --------------------------------------------------------------------------------------------
  // Reading what was written
  // --------------------------------------------------------------------------------------------

  /** No tag that starts in the text can be the opening tag of a body. */
  predicate Inert(s: string) {
    forall i :: 0 <= i < |s| && s[i] == '<' ==> i + 1 < |s| && s[i + 1] != 'c'
  }

  lemma {:induction false} InertConcat(a: string, b: string)
    requires Inert(a) && Inert(b)
    ensures Inert(a + b)
  {
    var s := a + b;
    forall i | 0 <= i < |s| && s[i] == '<' ensures i + 1 < |s| && s[i + 1] != 'c' {
      if i < |a| {
        assert a[i] == '<' && s[i + 1] == a[i + 1];
      } else {
        assert b[i - |a|] == '<' && s[i + 1] == b[i + 1 - |a|];
      }
    }
  }

  lemma {:induction false} InertAttribute(name: string, value: string)
    requires Inert(name)
    requires forall i :: 0 <= i < |value| ==> value[i] != '<'
    ensures Inert(name + value + "\"")
  {
    InertConcat(name, value);
    InertConcat(name + value, "\"");
  }

  lemma {:induction false} PageIsInert(page: Option<nat>)
    ensures Inert(Page(page))
  {
    if page.Some? {
      InertAttribute(" page=\"", Show(page.value));
    }
  }

  lemma {:induction false} TagIsInert(index: nat, e: Evidence)
    ensures Inert(Tag(index, e))
  {
    EscapedHasNoBracket(e.sourceId);
    EscapedHasNoBracket(e.title);
    var a, b, c, d := "<source index=\"", " source_id=\"", " title=\"", ">\n";
    assert Tag(index, e) == a + Show(index) + "\"" + (b + Escape(e.sourceId) + "\"")
                          + (c + Escape(e.title) + "\"") + Page(e.page) + d;
    assert Inert(a) && Inert(b) && Inert(c) && Inert(d);
    var digits := Show(index);
    assert forall i :: 0 <= i < |digits| ==> digits[i] != '<';
    var sourceId, title := Escape(e.sourceId), Escape(e.title);
    hide *;
    InertAttribute(a, digits);
    InertAttribute(b, sourceId);
    InertAttribute(c, title);
    PageIsInert(e.page);
    InertConcat(a + digits + "\"", b + sourceId + "\"");
    InertConcat(a + digits + "\"" + (b + sourceId + "\""), c + title + "\"");
    InertConcat(a + digits + "\"" + (b + sourceId + "\"") + (c + title + "\""), Page(e.page));
    InertConcat(a + digits + "\"" + (b + sourceId + "\"") + (c + title + "\"") + Page(e.page), d);
  }

  /** The search passes over positions where the pattern does not start. */
  lemma {:induction false} FindFrom(s: string, pat: string, n: nat)
    requires n <= |s| && forall i :: 0 <= i < n ==> !StartsWith(s[i..], pat)
    ensures Find(s[n..], pat).None? ==> Find(s, pat).None?
    ensures Find(s[n..], pat).Some? ==> Find(s, pat) == Some(n + Find(s[n..], pat).value)
  {
    hide StartsWith, Find;
    if n == 0 {
      assert s[0..] == s;
    } else {
      var t := s[1..];
      assert s[0..] == s;
      FindStep(s, pat);
      forall i | 0 <= i < n - 1 ensures !StartsWith(t[i..], pat) {
        assert t[i..] == s[i + 1..];
      }
      FindFrom(t, pat, n - 1);
      assert t[n - 1..] == s[n..];
    }
  }

  /** A pattern is found after the text in which it cannot start. */
  lemma {:induction false} FindSkips(plain: string, rest: string, pat: string)
    requires forall i :: 0 <= i < |plain| ==> !StartsWith(plain[i..] + rest, pat)
    ensures Find(rest, pat).None? ==> Find(plain + rest, pat).None?
    ensures Find(rest, pat).Some? ==> Find(plain + rest, pat) == Some(|plain| + Find(rest, pat).value)
  {
    hide StartsWith, Find;
    var s := plain + rest;
    forall i | 0 <= i < |plain| ensures !StartsWith(s[i..], pat) {
      assert s[i..] == plain[i..] + rest;
    }
    FindFrom(s, pat, |plain|);
    assert s[|plain|..] == rest;
  }

  lemma {:induction false} FindStep(s: string, pat: string)
    requires s != "" && !StartsWith(s, pat)
    ensures Find(s[1..], pat).None? ==> Find(s, pat).None?
    ensures Find(s[1..], pat).Some? ==> Find(s, pat) == Some(1 + Find(s[1..], pat).value)
  {
  }

  lemma {:induction false} InertHasNoTag(s: string, rest: string)
    requires Inert(s)
    ensures forall i :: 0 <= i < |s| ==> !StartsWith(s[i..] + rest, ContentOpen())
  {
    forall i | 0 <= i < |s| ensures !StartsWith(s[i..] + rest, ContentOpen()) {
      var t := s[i..] + rest;
      assert t[0] == s[i] && (i + 1 < |s| ==> t[1] == s[i + 1]);
      StartsAgree(t, ContentOpen(), 0);
      StartsAgree(t, ContentOpen(), 1);
    }
  }

  lemma {:induction false} InertIsSkipped(s: string, rest: string)
    requires Inert(s)
    ensures Contents(s + rest) == Contents(rest)
  {
    hide *;
    InertHasNoTag(s, rest);
    FindSkips(s, rest, ContentOpen());
    var k := Find(rest, ContentOpen());
    if k.Some? {
      var n := k.value + |ContentOpen()|;
      assert (s + rest)[|s| + n..] == rest[n..];
    }
    ContentsFrom(s + rest);
    ContentsFrom(rest);
  }

  lemma {:induction false} NoTagStarts(plain: string, rest: string)
    requires forall i :: 0 <= i < |plain| ==> plain[i] != '<'
    ensures forall i :: 0 <= i < |plain| ==> !StartsWith(plain[i..] + rest, ContentClose())
  {
    forall i | 0 <= i < |plain| ensures !StartsWith(plain[i..] + rest, ContentClose()) {
      assert (plain[i..] + rest)[0] == plain[i];
      StartsAgree(plain[i..] + rest, ContentClose(), 0);
    }
  }

  lemma {:induction false} MiddlePart(a: string, tag: string, rest: string)
    ensures (a + (tag + rest))[..|a|] == a && (a + (tag + rest))[|a| + |tag|..] == rest
  {
  }

  lemma {:induction false} OneElement(inner: string, rest: string)
    requires forall i :: 0 <= i < |inner| ==> inner[i] != '<'
    ensures Contents(ContentOpen() + inner + (ContentClose() + rest)) == [Unescape(Trim(inner))] + Contents(rest)
  {
    hide *;
    var after := inner + (ContentClose() + rest);
    NoTagStarts(inner, ContentClose() + rest);
    TagFirst(ContentClose(), rest);
    FindSkips(inner, ContentClose() + rest, ContentClose());
    assert Find(after, ContentClose()) == Some(|inner|);
    MiddlePart(inner, ContentClose(), rest);
    BodyFrom(after);
    OpenedBody(after);
    Regroup(ContentOpen(), inner, ContentClose() + rest);
  }

  lemma {:induction false} OpenedBody(after: string)
    ensures Contents(ContentOpen() + after) == Body(after)
  {
    hide *;
    TagFirst(ContentOpen(), after);
    ContentsFrom(ContentOpen() + after);
  }

  /** One rendered body is read back as the trimmed original. */
  lemma {:induction false} OneBody(body: string, rest: string)
    ensures Contents(ContentOpen() + ("\n" + Escape(Trim(body)) + "\n") + (ContentClose() + rest))
         == [Trim(body)] + Contents(rest)
  {
    var original := Trim(body);
    assert IsTrimmed(original) && IsWhitespace('\n');
    hide *;
    var escaped := Escape(original);
    EscapedHasNoBracket(original);
    EscapedStaysTrimmed(original);
    TrimPadded("\n", escaped, "\n");
    UnescapeInvertsEscape(original);
    OneElement("\n" + escaped + "\n", rest);
  }

  lemma {:induction false} TagFirst(tag: string, rest: string)
    ensures Find(tag + rest, tag) == Some(0) && (tag + rest)[|tag|..] == rest
  {
    StartsPrefix(tag, rest);
  }

  lemma {:induction false} EntryIsRead(index: nat, e: Evidence, rest: string)
    ensures Contents(Entry(index, e) + rest) == [Trim(e.body)] + Contents(rest)
  {
    var tail := EntryTail();
    var inner := "\n" + Escape(Trim(e.body)) + "\n";
    TagIsInert(index, e);
    assert Inert(tail);
    assert Entry(index, e) == Tag(index, e) + (ContentOpen() + inner + (ContentClose() + tail));
    hide *;
    var more := ContentOpen() + inner + (ContentClose() + (tail + rest));
    assert Entry(index, e) + rest == Tag(index, e) + more;
    InertIsSkipped(Tag(index, e), more);
    OneBody(e.body, tail + rest);
    InertIsSkipped(tail, rest);
  }

  lemma {:induction false} EntriesAreRead(index: nat, results: seq<Evidence>, rest: string)
    ensures Contents(Entries(index, results) + rest) == Bodies(results) + Contents(rest)
    decreases |results|
  {
    hide Entry, Contents, Trim;
    if results == [] {
      assert Entries(index, results) + rest == rest;
    } else {
      var more := Entries(index + 1, results[1..]) + rest;
      EntriesAreRead(index + 1, results[1..], rest);
      assert Entries(index, results) + rest == Entry(index, results[0]) + more;
      EntryIsRead(index, results[0], more);
    }
  }

  // --------------------------------------------------------------------------------------------
  // The attributes of an entry
  // --------------------------------------------------------------------------------------------

  function IsQuote(c: char): bool { c == '"' }

  lemma {:induction false} EscapedHasNoQuote(s: string)
    ensures forall i :: 0 <= i < |Escape(s)| ==> Escape(s)[i] != '"'
  {
    if s != "" {
      EscapedHasNoQuote(s[1..]);
      EscapeOne(s[0]);
      assert s == [s[0]] + s[1..];
      EscapeConcat([s[0]], s[1..], 0);
      var head, rest := Escape([s[0]]), Escape(s[1..]);
      assert forall i :: 0 <= i < |head| ==> head[i] != '"';
      hide EscapeAfter;
      assert Escape(s) == head + rest;
    }
  }

  /** An attribute is cut off at its two quotes. */
  lemma {:induction false} AttributeIsCut(name: string, value: string, rest: string)
    requires forall i :: 0 <= i < |name| ==> name[i] != '"'
    requires forall i :: 0 <= i < |value| ==> value[i] != '"'
    ensures SplitOn(name + ['"'] + (value + ['"'] + rest), IsQuote) == [name, value] + SplitOn(rest, IsQuote)
  {
    SplitAfterPiece(name, '"', value + ['"'] + rest, IsQuote);
    SplitAfterPiece(value, '"', rest, IsQuote);
  }

  /** Cutting the tag of an entry at its quotes gives its attributes: the rank, the source and the title, unescaped, and
      the page where there is one. */
  lemma {:induction false} TagIsRead(index: nat, e: Evidence)
    ensures var parts := SplitOn(Tag(index, e), IsQuote);
            && |parts| == (if e.page.Some? then 9 else 7)
            && parts[0] == "<source index=" && AllDigits(parts[1]) && Value(parts[1]) == index
            && parts[2] == " source_id=" && Unescape(parts[3]) == e.sourceId
            && parts[4] == " title=" && Unescape(parts[5]) == e.title
            && (e.page.Some? ==>
                  parts[6] == " page=" && AllDigits(parts[7]) && Value(parts[7]) == e.page.value)
            && parts[|parts| - 1] == ">\n"
  {
    var id, title := Escape(e.sourceId), Escape(e.title);
    EscapedHasNoQuote(e.sourceId);
    EscapedHasNoQuote(e.title);
    UnescapeInvertsEscape(e.sourceId);
    UnescapeInvertsEscape(e.title);
    TagParts(index, e);
    PageIsCut(e.page);
    hide Escape, Unescape, Value, SplitOn, Page, Tag;
    AttributeIsCut(" title=", title, Page(e.page) + ">\n");
    var titled := " title=" + ['"'] + (title + ['"'] + (Page(e.page) + ">\n"));
    AttributeIsCut(" source_id=", id, titled);
    AttributeIsCut("<source index=", Show(index), " source_id=" + ['"'] + (id + ['"'] + titled));
  }

  lemma {:induction false} TagParts(index: nat, e: Evidence)
    ensures var end := Page(e.page) + ">\n";
            var title := " title=" + ['"'] + (Escape(e.title) + ['"'] + end);
            var id := " source_id=" + ['"'] + (Escape(e.sourceId) + ['"'] + title);
            Tag(index, e) == "<source index=" + ['"'] + (Show(index) + ['"'] + id)
  {
    hide Escape, Page, Show;
  }

  lemma {:induction false} PageIsCut(page: Option<nat>)
    ensures SplitOn(Page(page) + ">\n", IsQuote)
         == match page case Some(p) => [" page=", Show(p), ">\n"] case None => [">\n"]
  {
    SplitPiece(">\n", IsQuote);
    match page
    case Some(p) =>
      AttributeIsCut(" page=", Show(p), ">\n");
      assert Page(page) + ">\n" == " page=" + ['"'] + (Show(p) + ['"'] + ">\n");
    case None =>
      assert Page(page) + ">\n" == ">\n";
  }

  /** The passage of rank `k`, counted from zero, carries the tag with number `k + 1`. */
  lemma {:induction false} RanksAreNumbered(results: seq<Evidence>, k: nat) returns (before: string, after: string)
    requires k < |results|
    ensures FormatContext(results) == before + Tag(k + 1, results[k]) + after
  {
    hide Entry, Tag, RegionOpen, RegionClose;
    var front, rest := EntryAt(1, results, k);
    var tail := EntryBehindTag(k + 1, results[k]);
    before, after := RegionOpen() + front, tail + rest + RegionClose();
    hide FormatContext;
    FormatContextParts(results, "");
    assert FormatContext(results) + "" == FormatContext(results) && RegionClose() + "" == RegionClose();
    Placed(RegionOpen(), front, Tag(k + 1, results[k]), tail, rest, RegionClose());
  }

  lemma {:induction false} Placed(a: string, b: string, tag: string, tail: string, rest: string, close: string)
    ensures a + (b + (tag + tail) + rest + close) == (a + b) + tag + (tail + rest + close)
  {
  }

  lemma {:induction false} EntryAt(from: nat, results: seq<Evidence>, k: nat) returns (before: string, after: string)
    requires k < |results|
    ensures Entries(from, results) == before + Entry(from + k, results[k]) + after
    decreases k
  {
    hide Entry;
    if k == 0 {
      before, after := "", Entries(from + 1, results[1..]);
    } else {
      var front, rest := EntryAt(from + 1, results[1..], k - 1);
      before, after := Entry(from, results[0]) + front, rest;
      assert Entry(from, results[0]) + (front + Entry(from + k, results[k]) + rest)
          == Entry(from, results[0]) + front + Entry(from + k, results[k]) + rest;
    }
  }

  lemma {:induction false} EntryBehindTag(index: nat, e: Evidence) returns (tail: string)
    ensures Entry(index, e) == Tag(index, e) + tail
  {
    hide Tag;
    tail := ContentOpen() + ("\n" + Escape(Trim(e.body)) + "\n") + (ContentClose() + EntryTail());
  }

  lemma {:induction false} FormatContextParts(results: seq<Evidence>, rest: string)
    requires results != []
    ensures FormatContext(results) + rest == RegionOpen() + (Entries(1, results) + (RegionClose() + rest))
  {
    hide RegionOpen, RegionClose, Entries;
  }

  /** What the renderer wrote is read back: the trimmed passages, in rank order, then whatever follows. */
  lemma {:induction false} ContextIsRead(results: seq<Evidence>, rest: string)
    ensures Contents(FormatContext(results) + rest) == Bodies(results) + Contents(rest)
  {
    if results == [] {
      assert FormatContext(results) + rest == rest;
    } else {
      assert Inert(RegionOpen()) && Inert(RegionClose());
      hide RegionOpen, RegionClose, Contents, Entries, Inert;
      var more := Entries(1, results) + (RegionClose() + rest);
      FormatContextParts(results, rest);
      hide FormatContext;
      EntriesAreRead(1, results, RegionClose() + rest);
      InertIsSkipped(RegionOpen(), more);
      InertIsSkipped(RegionClose(), rest);
    }
  }

  /** The reader finds the end of the policy wherever the policy first closes. */
  lemma {:induction false} PolicyIsSkipped(policy: string, rest: string)
    requires forall i :: 0 <= i < |policy| ==> !StartsWith(policy[i..] + PolicyClose() + rest, PolicyClose())
    ensures SourceTexts(policy + PolicyClose() + rest) == Contents(rest)
  {
    var text := policy + PolicyClose() + rest;
    assert text == policy + (PolicyClose() + rest);
    forall i | 0 <= i < |policy| ensures !StartsWith(policy[i..] + (PolicyClose() + rest), PolicyClose()) {
      assert policy[i..] + (PolicyClose() + rest) == policy[i..] + PolicyClose() + rest;
    }
    StartsPrefix(PolicyClose(), rest);
    FindSkips(policy, PolicyClose() + rest, PolicyClose());
    assert text[|policy| + |PolicyClose()|..] == rest;
  }

  /** A policy whose text does not hold its own closing tag closes where it ends. */
  lemma {:induction false} ClosesOnce(policy: string, rest: string)
    requires Find(policy, PolicyClose()).None?
    ensures forall i :: 0 <= i < |policy| ==> !StartsWith(policy[i..] + PolicyClose() + rest, PolicyClose())
  {
    var p := PolicyClose();
    forall i | 0 <= i < |policy| ensures !StartsWith(policy[i..] + p + rest, p) {
      var t := policy[i..] + p + rest;
      NotFoundAnywhere(policy, p, i);
      if |policy| - i < |p| {
        // The tag's own `<` would have to sit inside the tag.
        assert t[|policy| - i] == '<';
        StartsAgree(t, p, |policy| - i);
      } else {
        assert t[..|p|] == policy[i..][..|p|];
      }
    }
  }

  lemma {:induction false} NotFoundAnywhere(s: string, pat: string, i: nat)
    requires i < |s| && Find(s, pat).None?
    ensures !StartsWith(s[i..], pat)
  {
    if i == 0 {
      assert s[0..] == s;
    } else {
      NotFoundAnywhere(s[1..], pat, i - 1);
      assert s[1..][i - 1..] == s[i..];
    }
  }

  lemma {:induction false} FirstBlock(results: seq<Evidence>, others: seq<string>)
    ensures Blocks([FormatContext(results)] + others)
         == (if results == [] then "" else "\n\n") + (FormatContext(results) + Blocks(others))
  {
    assert ([FormatContext(results)] + others)[1..] == others;
    assert FormatContext(results) == "" <==> results == [];
    hide FormatContext;
  }

  /** The sources of an assembled prompt are the trimmed passages that went in, in rank order, whatever the
      passages, titles and policy say; text after the region adds only evidence elements of its own. */
  lemma {:induction false} SourcesRoundTrip(policy: string, results: seq<Evidence>, others: seq<string>)
    requires Find(policy, PolicyClose()).None?
    ensures SourceTexts(Assemble(policy + PolicyClose(), [FormatContext(results)] + others))
         == Bodies(results) + Contents(Blocks(others))
    ensures Find(Blocks(others), ContentOpen()).None?
        ==> SourceTexts(Assemble(policy + PolicyClose(), [FormatContext(results)] + others)) == Bodies(results)
  {
    ContentsFrom(Blocks(others));
    var blocks := [FormatContext(results)] + others;
    var gap := if results == [] then "" else "\n\n";
    FirstBlock(results, others);
    assert Inert(gap);
    assert Assemble(policy + PolicyClose(), blocks) == policy + PolicyClose() + Blocks(blocks);
    hide *;
    ContextIsRead(results, Blocks(others));
    InertIsSkipped(gap, FormatContext(results) + Blocks(others));
    ClosesOnce(policy, Blocks(blocks));
    PolicyIsSkipped(policy, Blocks(blocks));
  }
}
