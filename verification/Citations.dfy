/** Citation extraction of `llm/citations.rs`: which `[N]` markers of an answer become citations. */
module Citations {
  import opened Wrappers
  import opened Decimal
  import opened Utf8
  import opened CodeRanges
  import opened Claims

  const USIZE_MAX: nat := 0xFFFF_FFFF_FFFF_FFFF

  type Uuid = nat
  const NIL: Uuid := 0

  // --------------------------------------------------------------------------------------------
  // Chunks and their provenance
  // --------------------------------------------------------------------------------------------

  /** The part of `ChunkProvenance` that decides ownership. */
  datatype Provenance = Provenance(
      pageNumber: Option<nat>, pageEnd: Option<nat>, span: Option<(nat, nat)>, position: Option<nat>)
  {
    predicate IsCoherent() {
      && span.Some? && span.value.0 < span.value.1
      && match (pageNumber, pageEnd)
         case (Some(first), Some(last)) => first <= last
         case (None, Some(_)) => false
         case _ => true
    }

    predicate OwnsContent(content: string) {
      && span.Some? && span.value.0 < span.value.1 && span.value.1 - span.value.0 == Bytes(content)
      && IsCoherent()
    }

    predicate OwnsChunk(chunkIndex: int, content: string) {
      chunkIndex >= 0 && position == Some(chunkIndex) && OwnsContent(content)
    }
  }

  /** `chunkIndex` is signed in the source. */
  datatype Chunk = Chunk(
      sourceId: Uuid, generationId: Uuid, chunkIndex: int, content: string, relevanceScore: real,
        provenance: Provenance)

  datatype Citation = Citation(
      sourceId: Uuid, chunkIndex: int, text: string, relevanceScore: real, provenance: Provenance)

  datatype Located = Located(citation: Citation, markerStart: nat)

  /** `truncate_text`. */
  function TruncateText(text: string, maxChars: nat): (r: string)
  {
    if |text| <= maxChars then text else text[..if maxChars >= 3 then maxChars - 3 else 0] + "..."
  }

  /** The cut text keeps within the limit, except that a limit below three has no room for the dots; it is the whole
      text, or as much of its front as leaves room for them. */
  lemma {:induction false} TruncateTextFits(text: string, maxChars: nat)
    ensures var r := TruncateText(text, maxChars);
            && (|r| <= maxChars <==> |text| <= maxChars || maxChars >= 3)
            && (r == text || (|text| > maxChars && |r| >= 3 && r[|r| - 3..] == "..." && r[..|r| - 3] <= text
                              && (maxChars >= 3 ==> |r| == maxChars)))
            && (|text| <= maxChars ==> r == text)
  {
  }

  // --------------------------------------------------------------------------------------------
  // Markers
  // --------------------------------------------------------------------------------------------

  /** A match of the marker pattern: its first character and the digits between the brackets. */
  datatype Marker = Marker(start: nat, digits: string)

  function EndOfDigits(u: Unicode, text: string, i: nat): (j: nat)
    requires i <= |text|
    ensures i <= j <= |text| && (j < |text| ==> !u.decimalDigit(text[j]))
    ensures forall k :: i <= k < j ==> u.decimalDigit(text[k])
    decreases |text| - i
  {
    if i < |text| && u.decimalDigit(text[i]) then EndOfDigits(u, text, i + 1) else i
  }

  /** `\[(\d+)\]` matches at `i`: a bracket, at least one decimal digit of any script, a bracket. */
  predicate MarkerAt(u: Unicode, text: string, i: nat) {
    && i < |text| && text[i] == '['
    && var j := EndOfDigits(u, text, i + 1); i + 1 < j < |text| && text[j] == ']'
  }

  /** The matches of the pattern from `from` on, each search starting where the last match ended. */
  function Markers(u: Unicode, text: string, from: nat): (ms: seq<Marker>)
    requires from <= |text|
    decreases |text| - from
  {
    if from == |text| then []
    else if MarkerAt(u, text, from) then
      var j := EndOfDigits(u, text, from + 1);
      [Marker(from, text[from + 1..j])] + Markers(u, text, j + 1)
    else Markers(u, text, from + 1)
  }

  /** The marker stands in the text as it is: a bracket, its digits, a bracket. */
  ghost predicate Spelled(u: Unicode, text: string, m: Marker) {
    && m.digits != "" && (forall i :: 0 <= i < |m.digits| ==> u.decimalDigit(m.digits[i]))
    && m.start + |m.digits| + 2 <= |text|
    && text[m.start..m.start + |m.digits| + 2] == "[" + m.digits + "]"
  }

  lemma {:induction false} MarkersAreSpelled(u: Unicode, text: string, from: nat)
    requires from <= |text|
    ensures forall m :: m in Markers(u, text, from) ==> Spelled(u, text, m)
    decreases |text| - from
  {
    if from < |text| {
      MarkersAreSpelled(u, text, AfterMatch(u, text, from));
      if MarkerAt(u, text, from) {
        var j := EndOfDigits(u, text, from + 1);
        assert text[from..j + 1] == "[" + text[from + 1..j] + "]";
      }
      hide Spelled, MarkerAt, EndOfDigits;
    }
  }

  /** In order, and nothing skipped: every position where the pattern matches is a marker. */
  lemma {:induction false} MarkersAreAllMatches(u: Unicode, text: string, from: nat)
    requires u.ExtendsAscii() && from <= |text|
    ensures var ms := Markers(u, text, from);
            && (forall k :: 0 <= k < |ms| ==> from <= ms[k].start && MarkerAt(u, text, ms[k].start))
            && (forall k, l :: 0 <= k < l < |ms| ==> ms[k].start < ms[l].start)
            && (forall i :: from <= i && MarkerAt(u, text, i) ==> exists k :: 0 <= k < |ms| && ms[k].start == i)
    decreases |text| - from
  {
    if from < |text| {
      var next := AfterMatch(u, text, from);
      MarkersAreAllMatches(u, text, next);
      NoMatchBetween(u, text, from);
      MarkersUnfold(u, text, from);
      hide *;
      MoreMatches(u, text, from, next, Markers(u, text, from), Markers(u, text, next));
    } else {
      NoMatchAtEnd(u, text);
    }
  }

  lemma {:induction false} MoreMatches(u: Unicode, text: string, from: nat, next: nat, ms: seq<Marker>,
                                       rest: seq<Marker>)
    requires from < next
    requires forall k :: 0 <= k < |rest| ==> next <= rest[k].start && MarkerAt(u, text, rest[k].start)
    requires forall k, l :: 0 <= k < l < |rest| ==> rest[k].start < rest[l].start
    requires forall i :: next <= i && MarkerAt(u, text, i) ==> exists k :: 0 <= k < |rest| && rest[k].start == i
    requires forall i :: from < i < next ==> !MarkerAt(u, text, i)
    requires if MarkerAt(u, text, from) then exists m: Marker :: m.start == from && ms == [m] + rest else ms == rest
    ensures forall k :: 0 <= k < |ms| ==> from <= ms[k].start && MarkerAt(u, text, ms[k].start)
    ensures forall k, l :: 0 <= k < l < |ms| ==> ms[k].start < ms[l].start
    ensures forall i :: from <= i && MarkerAt(u, text, i) ==> exists k :: 0 <= k < |ms| && ms[k].start == i
  {
    hide MarkerAt;
    if MarkerAt(u, text, from) {
      forall i | from <= i && MarkerAt(u, text, i) ensures exists k :: 0 <= k < |ms| && ms[k].start == i {
        if i == from {
          assert ms[0].start == i;
        } else {
          var k :| 0 <= k < |rest| && rest[k].start == i;
          assert ms[k + 1] == rest[k];
        }
      }
    }
  }

  lemma {:induction false} NoMatchAtEnd(u: Unicode, text: string)
    ensures Markers(u, text, |text|) == [] && forall i :: |text| <= i ==> !MarkerAt(u, text, i)
  {
  }

  /** Where the search goes on: behind the match at `i`, or at the next character. */
  function AfterMatch(u: Unicode, text: string, i: nat): (j: nat)
    requires i < |text|
    ensures i < j <= |text|
  {
    if MarkerAt(u, text, i) then EndOfDigits(u, text, i + 1) + 1 else i + 1
  }

  lemma {:induction false} NoMatchBetween(u: Unicode, text: string, from: nat)
    requires u.ExtendsAscii() && from < |text|
    ensures forall i :: from < i < AfterMatch(u, text, from) ==> !MarkerAt(u, text, i)
  {
    assert !u.decimalDigit('[');
    hide EndOfDigits;
  }

  lemma {:induction false} MarkersUnfold(u: Unicode, text: string, from: nat)
    requires from < |text|
    ensures var rest := Markers(u, text, AfterMatch(u, text, from));
            if MarkerAt(u, text, from)
            then exists m: Marker :: m.start == from && Markers(u, text, from) == [m] + rest
            else Markers(u, text, from) == rest
  {
    hide EndOfDigits, MarkerAt;
    if MarkerAt(u, text, from) {
      assert Markers(u, text, from)[0].start == from;
      assert Markers(u, text, from) == [Markers(u, text, from)[0]] + Markers(u, text, AfterMatch(u, text, from));
    }
  }

  lemma {:induction false} MarkersInText(q: Request)
    requires q.u.ExtendsAscii()
    ensures InText(q, Markers(q.u, q.response, 0))
  {
    var ms := Markers(q.u, q.response, 0);
    MarkersAreAllMatches(q.u, q.response, 0);
    forall k | 0 <= k < |ms| ensures ms[k].start <= |q.response| {
      assert MarkerAt(q.u, q.response, ms[k].start);
    }
  }

  lemma {:induction false} MarkersMatch(q: Request, k: nat)
    requires q.u.ExtendsAscii() && k < |Markers(q.u, q.response, 0)|
    ensures MarkerAt(q.u, q.response, Markers(q.u, q.response, 0)[k].start)
  {
    MarkersAreAllMatches(q.u, q.response, 0);
  }

  lemma {:induction false} MarkersIncrease(q: Request, k: nat, l: nat)
    requires q.u.ExtendsAscii() && k < l < |Markers(q.u, q.response, 0)|
    ensures Markers(q.u, q.response, 0)[k].start < Markers(q.u, q.response, 0)[l].start
  {
    MarkersAreAllMatches(q.u, q.response, 0);
  }

  /** `str::parse::<usize>`: ASCII digits only, and no larger than the machine word. */
  function ParseUsize(digits: string): Option<nat> {
    if digits != [] && AllDigits(digits) && Value(digits) <= USIZE_MAX then Some(Value(digits)) else None
  }

  // --------------------------------------------------------------------------------------------
  // Which chunk a marker earns
  // --------------------------------------------------------------------------------------------

  datatype Request = Request(u: Unicode, response: string, chunks: seq<Chunk>, active: Option<map<Uuid, Uuid>>)

  function Offset(q: Request, m: Marker): nat
    requires m.start <= |q.response|
  {
    Bytes(q.response[..m.start])
  }

  /** The checks on the chunk itself. */
  predicate Citable(q: Request, m: Marker, chunk: Chunk)
    requires m.start <= |q.response|
  {
    && chunk.generationId != NIL
    && (q.active.Some? ==> chunk.sourceId in q.active.value && q.active.value[chunk.sourceId] == chunk.generationId)
    && chunk.provenance.OwnsChunk(chunk.chunkIndex, chunk.content)
    && (q.active.Some? ==> ClaimIsSupportedBy(q.u, Offset(q, m), q.response, chunk.content))
  }

  /** The index of the chunk the marker validly cites, if any. */
  function Resolve(q: Request, ranges: seq<Range>, m: Marker): (r: Option<nat>)
    requires m.start <= |q.response|
    ensures r.Some? ==> r.value < |q.chunks|
  {
    if InCode(Offset(q, m), ranges) then None else
    match ParseUsize(m.digits)
    case None => None
    case Some(index) =>
      if index == 0 || index > |q.chunks| || !Citable(q, m, q.chunks[index - 1]) then None else Some(index - 1)
  }

  /** What the markers resolve to, in order. */
  function Verdicts(q: Request, ranges: seq<Range>, ms: seq<Marker>): (vs: seq<Option<nat>>)
    requires InText(q, ms)
    ensures |vs| == |ms| && forall k :: 0 <= k < |ms| ==> vs[k] == Resolve(q, ranges, ms[k])
  {
    seq(|ms|, k requires 0 <= k < |ms| => Resolve(q, ranges, ms[k]))
  }

  predicate InText(q: Request, ms: seq<Marker>) {
    forall k :: 0 <= k < |ms| ==> ms[k].start <= |q.response|
  }

  function Cite(q: Request, m: Marker, index: nat): Located
    requires m.start <= |q.response| && index < |q.chunks|
  {
    var chunk := q.chunks[index];
    Located(Citation(chunk.sourceId, chunk.chunkIndex, TruncateText(chunk.content, 200), chunk.relevanceScore,
                     chunk.provenance),
            Offset(q, m))
  }

  /** The first `n` markers seen: which were first valid citations of their chunk, how many were refused,
      how many repeated a chunk. */
  function Firsts(vs: seq<Option<nat>>, n: nat): (ks: seq<nat>)
    requires n <= |vs|
    ensures forall i :: 0 <= i < |ks| ==> ks[i] < n && IsFirst(vs, ks[i])
    ensures forall i, j :: 0 <= i < j < |ks| ==> ks[i] < ks[j]
    ensures forall k :: 0 <= k < n && IsFirst(vs, k) ==> k in ks
  {
    if n == 0 then [] else Firsts(vs, n - 1) + if IsFirst(vs, n - 1) then [n - 1] else []
  }

  predicate IsFirst(vs: seq<Option<nat>>, k: nat) {
    k < |vs| && vs[k].Some? && forall j :: 0 <= j < k ==> vs[j] != vs[k]
  }

  function Refused(vs: seq<Option<nat>>, n: nat): nat
    requires n <= |vs|
  {
    if n == 0 then 0 else Refused(vs, n - 1) + if vs[n - 1].None? then 1 else 0
  }

  function Repeats(vs: seq<Option<nat>>, n: nat): nat
    requires n <= |vs|
  {
    if n == 0 then 0 else Repeats(vs, n - 1) + if vs[n - 1].Some? && !IsFirst(vs, n - 1) then 1 else 0
  }

  /** The citations at the marker positions `ks`. */
  predicate CitesAt(q: Request, ms: seq<Marker>, vs: seq<Option<nat>>, ks: seq<nat>, citations: seq<Located>)
    requires InText(q, ms) && |vs| == |ms|
    requires forall k :: 0 <= k < |vs| && vs[k].Some? ==> vs[k].value < |q.chunks|
  {
    && |citations| == |ks|
    && forall i :: 0 <= i < |ks| ==> && ks[i] < |ms| && vs[ks[i]].Some?
                                     && citations[i] == Cite(q, ms[ks[i]], vs[ks[i]].value)
  }

  /** The answer `extract_citations_with_active_generations` has to give. */
  predicate IsExtraction(q: Request, citations: seq<Located>, rejected: nat) {
    var ms := Markers(q.u, q.response, 0);
    InText(q, ms) &&
    var vs := Verdicts(q, RangesFrom(Encode(q.response), 0), ms);
    CitesAt(q, ms, vs, Firsts(vs, |vs|), citations) && rejected == Refused(vs, |vs|)
  }

  method ExtractCitations(q: Request) returns (citations: seq<Located>, rejected: nat)
    requires q.u.ExtendsAscii()
    ensures IsExtraction(q, citations, rejected)
  {
    hide *;
    var ranges := FindCodeRanges(Encode(q.response));
    var ms := Markers(q.u, q.response, 0);
    MarkersInText(q);
    citations, rejected := [], 0;
    var seen: set<nat> := {};
    ghost var vs := Verdicts(q, ranges, ms);
    NothingCollected(q, ms, vs);
    for n := 0 to |ms|
      invariant Collected(q, ms, vs, n, citations, rejected, seen)
    {
      var verdict := Resolve(q, ranges, ms[n]);
      CollectOne(q, ms, vs, n, citations, rejected, seen);
      if verdict.None? {
        rejected := rejected + 1;
      } else if verdict.value !in seen {
        seen := seen + {verdict.value};
        citations := citations + [Cite(q, ms[n], verdict.value)];
      }
    }
    AllCollected(q, citations, rejected, seen);
  }

  /** The state of the loop after `n` markers. */
  ghost predicate Collected(q: Request, ms: seq<Marker>, vs: seq<Option<nat>>, n: nat,
                            citations: seq<Located>, rejected: nat, seen: set<nat>)
    requires n <= |vs| == |ms| && InText(q, ms)
    requires forall k :: 0 <= k < |vs| && vs[k].Some? ==> vs[k].value < |q.chunks|
  {
    CitesAt(q, ms, vs, Firsts(vs, n), citations) && rejected == Refused(vs, n) && HaveSeen(vs, n, seen)
  }

  lemma {:induction false} NothingCollected(q: Request, ms: seq<Marker>, vs: seq<Option<nat>>)
    requires |vs| == |ms| && InText(q, ms)
    requires forall k :: 0 <= k < |vs| && vs[k].Some? ==> vs[k].value < |q.chunks|
    ensures Collected(q, ms, vs, 0, [], 0, {})
    ensures forall k :: 0 <= k < |ms| ==> ms[k].start <= |q.response|
  {
  }

  lemma {:induction false} AllCollected(q: Request, citations: seq<Located>, rejected: nat, seen: set<nat>)
    requires q.u.ExtendsAscii() && InText(q, Markers(q.u, q.response, 0))
    requires var ms := Markers(q.u, q.response, 0);
             Collected(q, ms, Verdicts(q, RangesFrom(Encode(q.response), 0), ms), |ms|, citations, rejected, seen)
    ensures IsExtraction(q, citations, rejected)
  {
    hide Resolve, CitesAt, Firsts, Refused, HaveSeen, Markers;
  }

  lemma {:induction false} CollectOne(q: Request, ms: seq<Marker>, vs: seq<Option<nat>>, n: nat,
                                      citations: seq<Located>, rejected: nat, seen: set<nat>)
    requires n < |vs| == |ms| && InText(q, ms)
    requires forall k :: 0 <= k < |vs| && vs[k].Some? ==> vs[k].value < |q.chunks|
    requires Collected(q, ms, vs, n, citations, rejected, seen)
    ensures ms[n].start <= |q.response|
    ensures if vs[n].None? then Collected(q, ms, vs, n + 1, citations, rejected + 1, seen)
            else if vs[n].value in seen then Collected(q, ms, vs, n + 1, citations, rejected, seen)
            else Collected(q, ms, vs, n + 1, citations + [Cite(q, ms[n], vs[n].value)], rejected, seen + {vs[n].value})
  {
    hide Cite, HaveSeen, CitesAt, IsFirst;
    SeenMeansRepeat(vs, n, seen);
    assert !IsFirst(vs, n) ==> Firsts(vs, n + 1) == Firsts(vs, n);
    if IsFirst(vs, n) {
      CitesSnoc(q, ms, vs, n, citations);
    }
  }

  lemma {:induction false} CitesSnoc(q: Request, ms: seq<Marker>, vs: seq<Option<nat>>, n: nat, citations: seq<Located>)
    requires InText(q, ms) && |vs| == |ms| && n < |ms| && IsFirst(vs, n)
    requires forall k :: 0 <= k < |vs| && vs[k].Some? ==> vs[k].value < |q.chunks|
    requires CitesAt(q, ms, vs, Firsts(vs, n), citations)
    ensures CitesAt(q, ms, vs, Firsts(vs, n + 1), citations + [Cite(q, ms[n], vs[n].value)])
  {
    hide Cite;
    assert Firsts(vs, n + 1) == Firsts(vs, n) + [n];
  }

  ghost predicate HaveSeen(vs: seq<Option<nat>>, n: nat, seen: set<nat>)
    requires n <= |vs|
  {
    forall c: nat :: c in seen <==> exists k :: 0 <= k < n && vs[k] == Some(c)
  }

  lemma {:induction false} SeenMeansRepeat(vs: seq<Option<nat>>, n: nat, seen: set<nat>)
    requires n < |vs| && HaveSeen(vs, n, seen)
    ensures vs[n].None? ==> !IsFirst(vs, n) && HaveSeen(vs, n + 1, seen)
    ensures vs[n].Some? && vs[n].value in seen ==> !IsFirst(vs, n) && HaveSeen(vs, n + 1, seen)
    ensures vs[n].Some? && vs[n].value !in seen ==> IsFirst(vs, n) && HaveSeen(vs, n + 1, seen + {vs[n].value})
  {
    if vs[n].Some? {
      var next := seen + {vs[n].value};
      forall c: nat ensures c in next <==> exists k :: 0 <= k < n + 1 && vs[k] == Some(c) {
        if c == vs[n].value {
          assert vs[n] == Some(c);
        }
      }
    }
  }

  // --------------------------------------------------------------------------------------------
  // What the extraction guarantees
  // --------------------------------------------------------------------------------------------

  /** Every marker is accounted for once: it is a citation, a refusal, or a valid repeat. */
  lemma {:induction false} EveryMarkerCounts(q: Request, citations: seq<Located>, rejected: nat)
    requires q.u.ExtendsAscii() && IsExtraction(q, citations, rejected)
    ensures var ms := Markers(q.u, q.response, 0);
            && InText(q, ms)
            && var vs := Verdicts(q, RangesFrom(Encode(q.response), 0), ms);
               |ms| == |citations| + rejected + Repeats(vs, |vs|)
  {
    hide Resolve;
    var vs := Verdicts(q, RangesFrom(Encode(q.response), 0), Markers(q.u, q.response, 0));
    CountsAddUp(vs, |vs|);
  }

  lemma {:induction false} CountsAddUp(vs: seq<Option<nat>>, n: nat)
    requires n <= |vs|
    ensures n == |Firsts(vs, n)| + Refused(vs, n) + Repeats(vs, n)
  {
    if n > 0 {
      CountsAddUp(vs, n - 1);
    }
  }

  /** The markers that validly cite chunk `index`. */
  ghost predicate CitesValidly(q: Request, m: Marker, index: nat) {
    && MarkerAt(q.u, q.response, m.start)
    && m in Markers(q.u, q.response, 0)
    && Resolve(q, RangesFrom(Encode(q.response), 0), m) == Some(index)
  }

  /** The citation shows the chunk: whose it is, the front of its text, its score and provenance, at the marker. */
  ghost predicate IsCitation(q: Request, c: Located, index: nat, m: Marker) {
    && index < |q.chunks| && m.start <= |q.response| && c.markerStart == Bytes(q.response[..m.start])
    && var chunk, shown := q.chunks[index], c.citation;
       && shown.sourceId == chunk.sourceId && shown.chunkIndex == chunk.chunkIndex
       && shown.relevanceScore == chunk.relevanceScore && shown.provenance == chunk.provenance
       && shown.text == TruncateText(chunk.content, 200)
  }

  /** The citation `c` stands at the first marker that validly cites chunk `index`. */
  ghost predicate IsFirstCitation(q: Request, c: Located, index: nat, m: Marker) {
    && CitesValidly(q, m, index) && IsCitation(q, c, index, m)
    && forall m' :: CitesValidly(q, m', index) ==> m.start <= m'.start
  }

  /** Citations and validly cited chunks correspond one to one: a chunk has a citation exactly when some
      marker validly cites it, it has one only, at the first such marker, and citations come in the order
      of their markers. */
  lemma {:induction false} CitationsAreFirstMarkers(q: Request, citations: seq<Located>, rejected: nat)
    returns (chunkOf: seq<nat>, markerOf: seq<Marker>)
    requires q.u.ExtendsAscii() && IsExtraction(q, citations, rejected)
    ensures |chunkOf| == |markerOf| == |citations|
    ensures forall i :: 0 <= i < |citations| ==> IsFirstCitation(q, citations[i], chunkOf[i], markerOf[i])
    ensures forall i, j :: 0 <= i < j < |citations|
              ==> chunkOf[i] != chunkOf[j] && citations[i].markerStart < citations[j].markerStart
    ensures forall index, m :: CitesValidly(q, m, index) ==> index in chunkOf
  {
    hide Resolve, Cite, MarkerAt, IsFirstCitation, CitesValidly;
    var ms := Markers(q.u, q.response, 0);
    var vs := Verdicts(q, RangesFrom(Encode(q.response), 0), ms);
    var ks := Firsts(vs, |vs|);
    chunkOf := seq(|ks|, i requires 0 <= i < |ks| => vs[ks[i]].value);
    markerOf := seq(|ks|, i requires 0 <= i < |ks| => ms[ks[i]]);
    forall i | 0 <= i < |ks| ensures IsFirstCitation(q, citations[i], chunkOf[i], markerOf[i]) {
      FirstIsFirstCitation(q, ks[i]);
    }
    forall i, j | 0 <= i < j < |ks|
      ensures chunkOf[i] != chunkOf[j] && citations[i].markerStart < citations[j].markerStart
    {
      assert vs[ks[i]] != vs[ks[j]];
      MarkersIncrease(q, ks[i], ks[j]);
      OffsetsIncrease(q, markerOf[i], markerOf[j], chunkOf[i], chunkOf[j]);
    }
    forall index, m | CitesValidly(q, m, index) ensures index in chunkOf {
      var k := MarkerOfValid(q, m, index);
      var f := FirstOf(vs, k);
      var i :| 0 <= i < |ks| && ks[i] == f;
      assert chunkOf[i] == index;
    }
  }

  ghost function AllVerdicts(q: Request): (vs: seq<Option<nat>>)
    requires q.u.ExtendsAscii()
  {
    MarkersInText(q);
    Verdicts(q, RangesFrom(Encode(q.response), 0), Markers(q.u, q.response, 0))
  }

  lemma {:induction false} MarkerOfValid(q: Request, m: Marker, index: nat) returns (k: nat)
    requires q.u.ExtendsAscii() && CitesValidly(q, m, index)
    ensures k < |Markers(q.u, q.response, 0)| && Markers(q.u, q.response, 0)[k] == m
    ensures AllVerdicts(q)[k] == Some(index)
  {
    hide Resolve, MarkerAt;
    var ms := Markers(q.u, q.response, 0);
    k :| 0 <= k < |ms| && ms[k] == m;
  }

  lemma {:induction false} CiteShows(q: Request, m: Marker, index: nat)
    ensures m.start <= |q.response| && index < |q.chunks| ==> IsCitation(q, Cite(q, m, index), index, m)
  {
    hide TruncateText, Bytes;
  }

  lemma {:induction false} FirstIsFirstCitation(q: Request, k: nat)
    requires q.u.ExtendsAscii() && IsFirst(AllVerdicts(q), k)
    ensures var index := AllVerdicts(q)[k].value;
            var m := Markers(q.u, q.response, 0)[k];
            m.start <= |q.response| && index < |q.chunks| && IsFirstCitation(q, Cite(q, m, index), index, m)
  {
    var vs, ms := AllVerdicts(q), Markers(q.u, q.response, 0);
    var index := vs[k].value;
    CiteShows(q, ms[k], index);
    hide Resolve, Cite, MarkerAt, IsCitation;
    MarkersMatch(q, k);
    MarkersInText(q);
    assert ms[k] in ms;
    forall m' | CitesValidly(q, m', index) ensures ms[k].start <= m'.start {
      var k' := MarkerOfValid(q, m', index);
      assert k' >= k;
      if k' > k {
        MarkersIncrease(q, k, k');
      }
    }
  }

  lemma {:induction false} OffsetsIncrease(q: Request, m: Marker, m': Marker, index: nat, index': nat)
    requires m.start < m'.start <= |q.response| && index < |q.chunks| && index' < |q.chunks|
    ensures Cite(q, m, index).markerStart < Cite(q, m', index').markerStart
  {
    BytesMonotone(q.response, m.start, m'.start);
  }

  lemma {:induction false} FirstOf(vs: seq<Option<nat>>, k: nat) returns (f: nat)
    requires k < |vs| && vs[k].Some?
    ensures f <= k && vs[f] == vs[k] && IsFirst(vs, f)
    decreases k
  {
    if IsFirst(vs, k) {
      f := k;
    } else {
      var j :| 0 <= j < k && vs[j] == vs[k];
      f := FirstOf(vs, j);
    }
  }

  /** The number in the brackets names chunk `index`, counted from one. */
  ghost predicate Names(q: Request, m: Marker, index: nat) {
    index < |q.chunks| && AllDigits(m.digits) && Value(m.digits) == index + 1 && Value(m.digits) <= USIZE_MAX
  }

  /** The chunk has a span as wide as its text, which is not empty, its position, and its pages in order. */
  ghost predicate IsOwned(chunk: Chunk) {
    var p := chunk.provenance;
    && p.position.Some? && p.position.value == chunk.chunkIndex
    && chunk.content != "" && p.span.Some? && p.span.value.1 == p.span.value.0 + Bytes(chunk.content)
    && (p.pageEnd.Some? ==> p.pageNumber.Some? && p.pageNumber.value <= p.pageEnd.value)
  }

  /** Where active generations are given, the chunk is of the active one and supports the claim before the marker. */
  ghost predicate IsBacked(q: Request, m: Marker, chunk: Chunk)
    requires m.start <= |q.response|
  {
    q.active.Some? ==>
      && chunk.sourceId in q.active.value && q.active.value[chunk.sourceId] == chunk.generationId
      && IsSupported(q.u, ClaimText(q.response[..m.start]), chunk.content)
  }

  ghost predicate OutsideCode(q: Request, m: Marker)
    requires m.start <= |q.response|
  {
    forall s: nat, e: nat :: InRange(Encode(q.response), s, e) ==> !(s <= Offset(q, m) < e)
  }

  /** A marker of the text validly cites a chunk exactly when it is not in code, its number names a chunk of this turn,
      that chunk belongs to a published index and owns its text, and, where active generations are given, it is of the
      active one and supports the claim in front of the marker. */
  lemma {:induction false} ValidExactly(q: Request, m: Marker, index: nat)
    requires q.u.ExtendsAscii() && m in Markers(q.u, q.response, 0)
    ensures m.start <= |q.response|
    ensures CitesValidly(q, m, index) <==>
              && OutsideCode(q, m) && Names(q, m, index)
              && q.chunks[index].generationId != NIL
              && IsOwned(q.chunks[index]) && IsBacked(q, m, q.chunks[index])
  {
    hide *;
    MarkerOfText(q, m);
    CitesMeans(q, m, index);
    OutsideMeans(q, m);
    NamesMeans(q, m, index);
    if index < |q.chunks| {
      CitableMeans(q, m, q.chunks[index]);
    }
  }

  lemma {:induction false} CitesMeans(q: Request, m: Marker, index: nat)
    requires m in Markers(q.u, q.response, 0) && m.start <= |q.response| && MarkerAt(q.u, q.response, m.start)
    ensures CitesValidly(q, m, index) <==>
              && !InCode(Offset(q, m), RangesFrom(Encode(q.response), 0))
              && ParseUsize(m.digits) == Some(index + 1) && index < |q.chunks| && Citable(q, m, q.chunks[index])
  {
    hide Markers, MarkerAt, Citable, ParseUsize, InCode, RangesFrom;
  }

  lemma {:induction false} MarkerOfText(q: Request, m: Marker)
    requires q.u.ExtendsAscii() && m in Markers(q.u, q.response, 0)
    ensures m.start <= |q.response| && m.digits != "" && MarkerAt(q.u, q.response, m.start)
  {
    var ms := Markers(q.u, q.response, 0);
    MarkersAreSpelled(q.u, q.response, 0);
    hide Markers, MarkerAt;
    var k :| 0 <= k < |ms| && ms[k] == m;
    MarkersMatch(q, k);
  }

  lemma {:induction false} OutsideMeans(q: Request, m: Marker)
    requires m.start <= |q.response|
    ensures OutsideCode(q, m) <==> !InCode(Offset(q, m), RangesFrom(Encode(q.response), 0))
  {
    var rs := RangesFrom(Encode(q.response), 0);
    hide RangesFrom, Offset;
    if InCode(Offset(q, m), rs) {
      var i :| 0 <= i < |rs| && rs[i].0 <= Offset(q, m) < rs[i].1;
      assert InRange(Encode(q.response), rs[i].0, rs[i].1);
    }
    if !OutsideCode(q, m) {
      var s: nat, e: nat :| InRange(Encode(q.response), s, e) && s <= Offset(q, m) < e;
      var i :| 0 <= i < |rs| && rs[i] == (s, e);
    }
  }

  lemma {:induction false} NamesMeans(q: Request, m: Marker, index: nat)
    requires m.digits != ""
    ensures Names(q, m, index) <==> ParseUsize(m.digits) == Some(index + 1) && index < |q.chunks|
  {
    hide Value;
  }

  lemma {:induction false} CitableMeans(q: Request, m: Marker, chunk: Chunk)
    requires m.start <= |q.response|
    ensures Citable(q, m, chunk) <==> chunk.generationId != NIL && IsOwned(chunk) && IsBacked(q, m, chunk)
  {
    OwnsMeans(chunk);
    BackedMeans(q, m, chunk);
    hide IsBacked, IsOwned, ClaimIsSupportedBy, Offset;
  }

  lemma {:induction false} OwnsMeans(chunk: Chunk)
    ensures chunk.provenance.OwnsChunk(chunk.chunkIndex, chunk.content) <==> IsOwned(chunk)
  {
    BytesOfSome(chunk.content);
    hide Bytes;
  }

  lemma {:induction false} BackedMeans(q: Request, m: Marker, chunk: Chunk)
    requires m.start <= |q.response|
    ensures IsBacked(q, m, chunk) <==>
              (q.active.Some? ==>
                 && chunk.sourceId in q.active.value && q.active.value[chunk.sourceId] == chunk.generationId
                 && ClaimIsSupportedBy(q.u, Offset(q, m), q.response, chunk.content))
  {
    PrefixAtBoundary(q.response, m.start);
    hide IsSupported, ClaimText, Bytes, PrefixAt;
  }

  lemma {:induction false} BytesOfSome(text: string)
    ensures text == "" <==> Bytes(text) == 0
  {
  }

  /** `[s, e)` is one of the code ranges of the text. */
  ghost predicate InRange(t: seq<byte>, s: nat, e: nat) {
    (s, e) in RangesFrom(t, 0)
  }
}
