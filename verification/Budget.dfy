/** The prompt budget of `llm/budget.rs`: token metering, message truncation, history fitting and the
    admission test. One token is one UTF-8 byte. */
module Budget {
  import opened Numbers
  import opened Sequences
  import opened Utf8
  import opened Text

  const USIZE_MAX: nat := 0xFFFF_FFFF_FFFF_FFFF

  const MAX_TOKENS_PER_HISTORY_MESSAGE: nat := 2000
  const MIN_RESERVE_TOKENS: nat := 1024
  const RESERVE_PERCENT: nat := 5
  const REQUEST_OVERHEAD_TOKENS: nat := 16
  const MESSAGE_OVERHEAD_TOKENS: nat := 8

  function TruncationMarker(): string {
    "\n\n[...truncated, full response available in history]"
  }

  datatype Role = User | Assistant | System

  datatype Message = Message(role: Role, content: string)

  // --------------------------------------------------------------------------------------------
  // Metering
  // --------------------------------------------------------------------------------------------

  class TokenMeter {
    var bytes: nat

    constructor ()
      ensures bytes == 0
    {
      bytes := 0;
    }

    method WriteStr(s: string)
      modifies this
      ensures bytes == old(bytes) + Bytes(s)
    {
      bytes := bytes + |Encode(s)|;
    }

    /** Feeding a text in pieces prices the text, however it was cut. */
    method WriteAll(pieces: seq<string>)
      modifies this
      ensures bytes == old(bytes) + Bytes(Concat(pieces))
    {
      assert pieces[..|pieces|] == pieces;
      for i := 0 to |pieces|
        invariant bytes == old(bytes) + Bytes(Concat(pieces[..i]))
      {
        assert pieces[..i + 1] == pieces[..i] + [pieces[i]];
        ConcatConcat(pieces[..i], [pieces[i]]);
        assert Concat([pieces[i]]) == pieces[i];
        BytesConcat(Concat(pieces[..i]), pieces[i]);
        WriteStr(pieces[i]);
      }
    }
  }

  function MessageTokens(content: string): nat {
    Bytes(content) + MESSAGE_OVERHEAD_TOKENS
  }

  function HistoryTokens(messages: seq<Message>): nat {
    if messages == [] then 0 else MessageTokens(messages[0].content) + HistoryTokens(messages[1..])
  }

  lemma {:induction false} HistoryTokensConcat(a: seq<Message>, b: seq<Message>)
    ensures HistoryTokens(a + b) == HistoryTokens(a) + HistoryTokens(b)
  {
    if a == [] {
      assert a + b == b;
    } else {
      assert (a + b)[1..] == a[1..] + b;
      HistoryTokensConcat(a[1..], b);
    }
  }

  function Contents(messages: seq<Message>): seq<string> {
    Map((m: Message) => m.content, messages)
  }

  /** A history costs the bytes that a meter would count over all its contents, and eight for each message. */
  lemma {:induction false} HistoryPrice(messages: seq<Message>)
    ensures HistoryTokens(messages) == Bytes(Concat(Contents(messages))) + 8 * |messages|
  {
    if messages != [] {
      HistoryPrice(messages[1..]);
      BytesConcat(messages[0].content, Concat(Contents(messages[1..])));
      assert Contents(messages) == [messages[0].content] + Contents(messages[1..]);
    }
  }

  // --------------------------------------------------------------------------------------------
  // Truncating one message
  // --------------------------------------------------------------------------------------------

  /** How many characters fit in `limit` bytes, given that the first `k` do. */
  function CharsWithin(content: string, limit: nat, k: nat): (r: nat)
    requires k <= |content| && Bytes(content[..k]) <= limit
    ensures k <= r <= |content| && Bytes(content[..r]) <= limit
    ensures r < |content| ==> Bytes(content[..r]) + Width(content[r]) > limit
    decreases |content| - k
  {
    if k == |content| || Bytes(content[..k]) + Width(content[k]) > limit then k
    else
      BytesSnoc(content, k);
      CharsWithin(content, limit, k + 1)
  }

  /** `truncate_message_content`. */
  function Truncate(content: string, maxTokens: nat): string {
    if Bytes(content) <= maxTokens then content
    else content[..CharsWithin(content, SaturatingSub(maxTokens, Bytes(TruncationMarker())), 0)] + TruncationMarker()
  }

  method TruncateMessageContent(content: string, maxTokens: nat) returns (r: string)
    ensures r == Truncate(content, maxTokens)
  {
    hide TruncationMarker;
    if Bytes(content) <= maxTokens {
      return content;
    }
    var target := SaturatingSub(maxTokens, Bytes(TruncationMarker()));
    var byteCount, truncateAt := 0, 0;
    while truncateAt < |content|
      invariant truncateAt <= |content| && byteCount == Bytes(content[..truncateAt]) <= target
      invariant CharsWithin(content, target, truncateAt) == CharsWithin(content, target, 0)
    {
      var newBytes := byteCount + Width(content[truncateAt]);
      if newBytes > target {
        break;
      }
      BytesSnoc(content, truncateAt);
      byteCount, truncateAt := newBytes, truncateAt + 1;
    }
    r := content[..truncateAt] + TruncationMarker();
  }

  /** The marker is short enough for the limit the history is cut with. */
  lemma {:induction false} MarkerBytes()
    ensures 52 <= Bytes(TruncationMarker()) <= 208
  {
    BytesBounds(TruncationMarker());
  }

  lemma {:induction false} BytesBounds(s: string)
    ensures |s| <= Bytes(s) <= 4 * |s|
  {
    if s != [] {
      BytesBounds(s[1..]);
    }
  }

  /** A message that is too long is cut after the longest whole-character prefix that leaves room for
      the marker: every shorter prefix fits, every longer one does not. */
  lemma {:induction false} TruncationIsLongest(content: string, maxTokens: nat, j: nat)
    requires Bytes(content) > maxTokens && j <= |content|
    ensures var limit := SaturatingSub(maxTokens, Bytes(TruncationMarker()));
            var k := |Truncate(content, maxTokens)| - |TruncationMarker()|;
            && 0 <= k <= |content| && Truncate(content, maxTokens) == content[..k] + TruncationMarker()
            && (Bytes(content[..j]) <= limit <==> j <= k)
  {
    hide TruncationMarker;
    var limit := SaturatingSub(maxTokens, Bytes(TruncationMarker()));
    var k := CharsWithin(content, limit, 0);
    if j < k {
      BytesMonotone(content, j, k);
    } else if j > k {
      BytesSnoc(content, k);
      if j > k + 1 {
        BytesMonotone(content, k + 1, j);
      }
    }
  }

  /** The result keeps within the budget, unless the budget has no room for the marker itself. */
  lemma {:induction false} TruncationFits(content: string, maxTokens: nat)
    ensures Bytes(Truncate(content, maxTokens)) <= maxTokens
            <==> Bytes(content) <= maxTokens || Bytes(TruncationMarker()) <= maxTokens
    ensures Bytes(Truncate(content, maxTokens)) <= maxTokens
            || Bytes(Truncate(content, maxTokens)) == Bytes(TruncationMarker())
  {
    hide TruncationMarker;
    if Bytes(content) > maxTokens {
      var k := CharsWithin(content, SaturatingSub(maxTokens, Bytes(TruncationMarker())), 0);
      BytesConcat(content[..k], TruncationMarker());
    }
  }

  // --------------------------------------------------------------------------------------------
  // Fitting the history
  // --------------------------------------------------------------------------------------------

  function TruncateMessage(m: Message): Message {
    m.(content := Truncate(m.content, MAX_TOKENS_PER_HISTORY_MESSAGE))
  }

  function TruncateAll(messages: seq<Message>): (r: seq<Message>)
    ensures |r| == |messages| && forall i :: 0 <= i < |r| ==> r[i] == TruncateMessage(messages[i])
  {
    Map(TruncateMessage, messages)
  }

  /** The newest `k` messages, each truncated. */
  function Newest(history: seq<Message>, k: nat): (kept: seq<Message>)
    requires k <= |history|
    ensures |kept| == k
  {
    TruncateAll(history[|history| - k..])
  }

  datatype Fitted = Fitted(messages: seq<Message>, dropped: seq<Message>, wasTruncated: bool, tokens: nat)

  /** `f` is the history cut to the budget: kept and dropped part the history in order, what is kept is
      within the budget, one message more would not be. */
  ghost predicate IsFit(history: seq<Message>, budget: nat, f: Fitted) {
    var n, k := |history|, |f.messages|;
    && k <= n
    && f.messages == Newest(history, k) && f.dropped == history[..n - k] && (f.wasTruncated <==> k < n)
    && f.tokens == HistoryTokens(f.messages) <= budget
    && (k < n ==> HistoryTokens(Newest(history, k + 1)) > budget)
  }

  function Reverse(ms: seq<Message>): (r: seq<Message>)
    ensures |r| == |ms|
  {
    if ms == [] then [] else [ms[|ms| - 1]] + Reverse(ms[..|ms| - 1])
  }

  lemma {:induction false} NewestGrows(history: seq<Message>, k: nat)
    requires k < |history|
    ensures var m := TruncateMessage(history[|history| - k - 1]);
            && Newest(history, k + 1) == [m] + Newest(history, k)
            && HistoryTokens(Newest(history, k + 1)) == MessageTokens(m.content) + HistoryTokens(Newest(history, k))
  {
    hide Truncate;
    var i := |history| - k - 1;
    assert history[i..][1..] == history[i + 1..];
  }

  method FitHistory(history: seq<Message>, budget: nat) returns (f: Fitted)
    ensures IsFit(history, budget, f)
  {
    hide Truncate;
    var totalTokens := 0;
    var kept: seq<Message> := [];
    var i := |history|;
    while i > 0
      invariant 0 <= i <= |history| && |kept| == |history| - i
      invariant Reverse(kept) == Newest(history, |kept|)
      invariant totalTokens == HistoryTokens(Newest(history, |kept|)) <= budget
    {
      var content := TruncateMessageContent(history[i - 1].content, MAX_TOKENS_PER_HISTORY_MESSAGE);
      var messageTokens := MessageTokens(content);
      NewestGrows(history, |kept|);
      if totalTokens + messageTokens > budget {
        break;
      }
      totalTokens := totalTokens + messageTokens;
      var m := Message(history[i - 1].role, content);
      assert (kept + [m])[..|kept|] == kept;
      kept := kept + [m];
      i := i - 1;
    }
    var messages := Reverse(kept);
    var wasTruncated := |messages| < |history|;
    var dropped := if wasTruncated then history[..|history| - |messages|] else [];
    f := Fitted(messages, dropped, wasTruncated, totalTokens);
  }

  /** More messages always cost more. */
  lemma {:induction false} NewestCosts(history: seq<Message>, j: nat, k: nat)
    requires j < k <= |history|
    ensures HistoryTokens(Newest(history, j)) < HistoryTokens(Newest(history, k))
    decreases k
  {
    hide Truncate, Newest;
    NewestGrows(history, k - 1);
    if j < k - 1 {
      NewestCosts(history, j, k - 1);
    }
  }

  /** The kept part is the longest end of the history that fits, message by message truncated. */
  lemma {:induction false} FitIsLongest(history: seq<Message>, budget: nat, f: Fitted, j: nat)
    requires IsFit(history, budget, f) && j <= |history|
    ensures HistoryTokens(Newest(history, j)) <= budget <==> j <= |f.messages|
  {
    hide Newest;
    var k := |f.messages|;
    if j < k {
      NewestCosts(history, j, k);
    } else if j > k + 1 {
      NewestCosts(history, k + 1, j);
    }
  }

  /** Each kept message is the one of the history: its role as it was, its content as it was if it has no more than
      2000 bytes, and never longer. */
  lemma {:induction false} KeptMessages(history: seq<Message>, budget: nat, f: Fitted, i: nat)
    requires IsFit(history, budget, f) && i < |f.messages|
    ensures var m, kept := history[|history| - |f.messages| + i], f.messages[i];
            && kept.role == m.role && Bytes(kept.content) <= 2000 && kept.content == Truncate(m.content, 2000)
            && (Bytes(m.content) <= 2000 ==> kept == m)
  {
    hide *;
    KeptIsTruncated(history, budget, f, i);
    var m := history[|history| - |f.messages| + i];
    MarkerBytes();
    TruncationFits(m.content, 2000);
    ShortIsKept(m.content, 2000);
  }

  lemma {:induction false} KeptIsTruncated(history: seq<Message>, budget: nat, f: Fitted, i: nat)
    requires IsFit(history, budget, f) && i < |f.messages|
    ensures |f.messages| <= |history|
    ensures f.messages[i] == Message(history[|history| - |f.messages| + i].role,
                                     Truncate(history[|history| - |f.messages| + i].content, 2000))
  {
    FitIsNewest(history, budget, f);
    hide IsFit, Truncate, HistoryTokens;
    var n, k := |history|, |f.messages|;
    assert history[n - k..][i] == history[n - k + i];
  }

  lemma {:induction false} FitIsNewest(history: seq<Message>, budget: nat, f: Fitted)
    requires IsFit(history, budget, f)
    ensures |f.messages| <= |history| && f.messages == Newest(history, |f.messages|)
  {
    hide Newest, HistoryTokens;
  }

  lemma {:induction false} ShortIsKept(content: string, maxTokens: nat)
    ensures Bytes(content) <= maxTokens ==> Truncate(content, maxTokens) == content
  {
    hide TruncationMarker, Bytes;
  }

  /** A larger budget keeps at least as much, and the smaller answer is an end of the larger one. */
  lemma {:induction false} FitIsMonotone(history: seq<Message>, budget: nat, larger: nat, f: Fitted, g: Fitted)
    requires budget <= larger && IsFit(history, budget, f) && IsFit(history, larger, g)
    ensures |f.messages| <= |g.messages| && f.messages == g.messages[|g.messages| - |f.messages|..]
  {
    hide Newest;
    FitIsLongest(history, larger, g, |f.messages|);
    NewestEnds(history, |f.messages|, |g.messages|);
  }

  lemma {:induction false} NewestEnds(history: seq<Message>, j: nat, k: nat)
    requires k <= |history|
    ensures j <= k ==> Newest(history, j) == Newest(history, k)[k - j..]
    decreases k
  {
    hide *;
    if j < k {
      NewestEnds(history, j, k - 1);
      NewestGrows(history, k - 1);
      var rest := Newest(history, k - 1);
      assert Newest(history, k)[k - j..] == rest[k - 1 - j..];
    }
  }

  lemma {:induction false} TruncateTwice(m: Message)
    ensures TruncateMessage(TruncateMessage(m)) == TruncateMessage(m)
  {
    hide TruncationMarker;
    MarkerBytes();
    TruncationFits(m.content, MAX_TOKENS_PER_HISTORY_MESSAGE);
  }

  /** Fitting what has been fitted changes nothing. */
  lemma {:induction false} FitIsIdempotent(history: seq<Message>, budget: nat, f: Fitted, g: Fitted)
    requires IsFit(history, budget, f) && IsFit(f.messages, budget, g)
    ensures g == Fitted(f.messages, [], false, f.tokens)
  {
    hide TruncateMessage;
    var n, k := |history|, |f.messages|;
    var again := TruncateAll(f.messages);
    forall i | 0 <= i < k ensures again[i] == f.messages[i] {
      TruncateTwice(history[n - k + i]);
    }
    assert f.messages[0..] == f.messages;
    assert Newest(f.messages, k) == f.messages;
    FitIsLongest(f.messages, budget, g, k);
  }

  // --------------------------------------------------------------------------------------------
  // Admission
  // --------------------------------------------------------------------------------------------

  function SaturatingAdd(a: nat, b: nat): nat {
    if a + b > USIZE_MAX then USIZE_MAX else a + b
  }

  datatype PromptBudget = PromptBudget(window: nat, reserve: nat, output: nat) {
    /** `PromptBudget::new`; the product wraps in the machine word. */
    static function New(window: nat, output: nat): PromptBudget {
      var percent := window * RESERVE_PERCENT % (USIZE_MAX + 1) / 100;
      PromptBudget(window, if percent < MIN_RESERVE_TOKENS then MIN_RESERVE_TOKENS else percent, output)
    }

    function PromptAllowance(): nat {
      SaturatingSub(SaturatingSub(SaturatingSub(window, reserve), output), REQUEST_OVERHEAD_TOKENS)
    }

    /** `admits_with_additional_prompt_tokens`. */
    predicate Admits(systemPrompt: string, messages: seq<Message>, additional: nat) {
      SaturatingAdd(SaturatingAdd(SaturatingAdd(RequestTokens(systemPrompt, messages), additional), output), reserve)
      <= window
    }

    /** The window has room for the reserve, the answer and the request framing. */
    predicate CoversOverhead() {
      reserve + output + REQUEST_OVERHEAD_TOKENS <= window
    }
  }

  function RequestTokens(systemPrompt: string, messages: seq<Message>): nat {
    REQUEST_OVERHEAD_TOKENS + Bytes(systemPrompt) + HistoryTokens(messages)
  }

  /** A request costs the bytes of everything in it, eight for each message and sixteen for itself. */
  lemma {:induction false} RequestPrice(systemPrompt: string, messages: seq<Message>)
    ensures RequestTokens(systemPrompt, messages)
         == Bytes(systemPrompt + Concat(Contents(messages))) + 8 * |messages| + 16
  {
    HistoryPrice(messages);
    BytesConcat(systemPrompt, Concat(Contents(messages)));
  }

  /** Admission is exactly "the content fits the prompt allowance" when the window covers the overhead,
      and exactly nothing when it does not. The one exception is a window of the largest machine word,
      where saturation hides every overflow and everything is admitted. */
  lemma {:induction false} AdmissionIsAllowance(b: PromptBudget, systemPrompt: string, messages: seq<Message>,
                                                additional: nat)
    requires b.window <= USIZE_MAX
    ensures b.Admits(systemPrompt, messages, additional)
            <==> || b.window == USIZE_MAX
                 || (b.CoversOverhead()
                     && Bytes(systemPrompt) + HistoryTokens(messages) + additional <= b.PromptAllowance())
  {
  }

  /** A request is admitted into a window for which the percentage does not wrap exactly when it leaves both
      the fixed reserve and the percentage of the window free. */
  lemma {:induction false} ReserveIsIntact(window: nat, output: nat, systemPrompt: string, messages: seq<Message>,
                                           additional: nat)
    requires window * RESERVE_PERCENT <= USIZE_MAX
    ensures var used := RequestTokens(systemPrompt, messages) + additional + output;
            PromptBudget.New(window, output).Admits(systemPrompt, messages, additional)
            <==> used + MIN_RESERVE_TOKENS <= window && used + window * RESERVE_PERCENT / 100 <= window
  {
    AdmissionIsAllowance(PromptBudget.New(window, output), systemPrompt, messages, additional);
    hide RequestTokens;
  }

  /** What the caller has already committed to besides history: the system prompt, tokens outside it,
      and the question. */
  function Committed(systemPrompt: string, additional: nat, question: string): nat {
    Bytes(systemPrompt) + additional + MessageTokens(question)
  }

  /** Fitting and admission compose: history fitted to exactly what the committed content leaves of the
      allowance is always admitted, and it is the longest end of the history that is. */
  lemma {:induction false} FittedHistoryIsAdmitted(
      b: PromptBudget, systemPrompt: string, additional: nat, question: string, history: seq<Message>, f: Fitted,
        j: nat)
    requires b.window < USIZE_MAX && b.CoversOverhead()
    requires Committed(systemPrompt, additional, question) <= b.PromptAllowance()
    requires IsFit(history, b.PromptAllowance() - Committed(systemPrompt, additional, question), f)
    requires j <= |history|
    ensures b.Admits(systemPrompt, f.messages + [Message(User, question)], additional)
    ensures b.Admits(systemPrompt, Newest(history, j) + [Message(User, question)], additional) <==> j <= |f.messages|
  {
    hide Newest, Truncate;
    var q := [Message(User, question)];
    assert HistoryTokens(q) == MessageTokens(question) by {
      assert q[1..] == [];
    }
    HistoryTokensConcat(f.messages, q);
    HistoryTokensConcat(Newest(history, j), q);
    AdmissionIsAllowance(b, systemPrompt, f.messages + q, additional);
    AdmissionIsAllowance(b, systemPrompt, Newest(history, j) + q, additional);
    FitIsLongest(history, b.PromptAllowance() - Committed(systemPrompt, additional, question), f, j);
  }

  /** The committed content alone has to fit: otherwise no history, not even none, makes the request
      admissible. */
  lemma {:induction false} NothingElseIsAdmitted(
      b: PromptBudget, systemPrompt: string, additional: nat, question: string, history: seq<Message>)
    requires b.window < USIZE_MAX
    requires !b.CoversOverhead() || Committed(systemPrompt, additional, question) > b.PromptAllowance()
    ensures !b.Admits(systemPrompt, history + [Message(User, question)], additional)
  {
    var q := [Message(User, question)];
    assert HistoryTokens(q) == MessageTokens(question) by {
      assert q[1..] == [];
    }
    HistoryTokensConcat(history, q);
    AdmissionIsAllowance(b, systemPrompt, history + q, additional);
  }
}
