/** Batch embedding of `clients/voyage.rs`: batches complete in any order and are put back in order. */
module Batches {
  import opened Sequences
  import opened Sorting

  datatype Result<+T, +E> = Done(value: T) | Fail(error: E)

  /** `slice::chunks`. */
  function Chunks<T>(xs: seq<T>, size: nat): seq<seq<T>>
    requires size > 0
    decreases |xs|
  {
    if xs == [] then [] else if |xs| <= size then [xs] else [xs[..size]] + Chunks(xs[size..], size)
  }

  /** Every batch but the last is full, and the last is not empty. */
  lemma {:induction false} ChunksAreFull<T>(xs: seq<T>, size: nat)
    requires size > 0
    ensures var cs := Chunks(xs, size);
            && (forall i :: 0 <= i < |cs| - 1 ==> |cs[i]| == size)
            && (cs != [] ==> 0 < |cs[|cs| - 1]| <= size)
            && size * |cs| < |xs| + size
    decreases |xs|
  {
    if |xs| > size {
      ChunksAreFull(xs[size..], size);
      var rest := Chunks(xs[size..], size);
      assert Chunks(xs, size) == [xs[..size]] + rest;
      assert size * (|rest| + 1) == size * |rest| + size;
    }
  }

  function Flatten<T>(xss: seq<seq<T>>): seq<T> {
    if xss == [] then [] else xss[0] + Flatten(xss[1..])
  }

  /** A value with the position it belongs to. */
  datatype Indexed<+T> = At(index: nat, value: T)

  function Enumerate<T>(xs: seq<T>): (r: seq<Indexed<T>>)
    ensures |r| == |xs| && forall i :: 0 <= i < |xs| ==> r[i] == At(i, xs[i])
  {
    if xs == [] then [] else Enumerate(xs[..|xs| - 1]) + [At(|xs| - 1, xs[|xs| - 1])]
  }

  function Values<T>(xs: seq<Indexed<T>>): (r: seq<T>)
    ensures |r| == |xs| && forall i :: 0 <= i < |xs| ==> r[i] == xs[i].value
  {
    if xs == [] then [] else [xs[0].value] + Values(xs[1..])
  }

  predicate ByIndex<T>(a: Indexed<T>, b: Indexed<T>) {
    a.index <= b.index
  }

  /** The embeddings of one response, sorted by the position each one names. */
  function InOrder<V>(data: seq<Indexed<V>>): seq<V> {
    Values(Sort(data, ByIndex))
  }

  /** One finished batch: its number, and the response or the error it ended with. */
  datatype Outcome<+V, +E> = Outcome(batch: nat, response: Result<seq<Indexed<V>>, E>)

  function FirstError<V, E>(outcomes: seq<Outcome<V, E>>): (e: Result<(), E>)
    ensures e.Done? <==> forall k :: 0 <= k < |outcomes| ==> outcomes[k].response.Done?
  {
    if outcomes == [] then Done(())
    else if outcomes[0].response.Fail? then Fail(outcomes[0].response.error)
    else FirstError(outcomes[1..])
  }

  /** The finished batches with their embeddings, in completion order. */
  function Collected<V, E>(outcomes: seq<Outcome<V, E>>): (r: seq<Indexed<seq<V>>>)
    requires forall k :: 0 <= k < |outcomes| ==> outcomes[k].response.Done?
    ensures |r| == |outcomes|
    ensures forall k :: 0 <= k < |r| ==> r[k] == At(outcomes[k].batch, InOrder(outcomes[k].response.value))
  {
    if outcomes == [] then []
    else [At(outcomes[0].batch, InOrder(outcomes[0].response.value))] + Collected(outcomes[1..])
  }

  /** `embed_documents` on the batches as they finish: the first error in completion order wins, otherwise
      the batches are sorted by number and joined. */
  method Reassemble<V, E>(outcomes: seq<Outcome<V, E>>) returns (r: Result<seq<V>, E>)
    ensures FirstError(outcomes).Fail? ==> r == Fail(FirstError(outcomes).error)
    ensures FirstError(outcomes).Done? ==> r == Done(Flatten(InOrder(Collected(outcomes))))
  {
    hide InOrder, Collected;
    var indexed: seq<Indexed<seq<V>>> := [];
    assert outcomes[0..] == outcomes && Collected(outcomes[..0]) == [];
    for k := 0 to |outcomes|
      invariant FirstError(outcomes) == FirstError(outcomes[k..])
      invariant forall i :: 0 <= i < k ==> outcomes[i].response.Done?
      invariant indexed == Collected(outcomes[..k])
    {
      assert outcomes[k..][1..] == outcomes[k + 1..];
      match outcomes[k].response {
        case Fail(error) => return Fail(error);
        case Done(data) =>
          indexed := indexed + [At(outcomes[k].batch, InOrder(data))];
          assert indexed == Collected(outcomes[..k + 1]);
      }
    }
    assert outcomes[..|outcomes|] == outcomes;
    r := Done(Flatten(InOrder(indexed)));
  }

  // --------------------------------------------------------------------------------------------
  // Any completion order gives the input order
  // --------------------------------------------------------------------------------------------

  function Range(n: nat): (r: seq<nat>)
    ensures |r| == n && forall i :: 0 <= i < n ==> r[i] == i
  {
    if n == 0 then [] else Range(n - 1) + [n - 1]
  }

  /** `outcomes` is some completion order of the batches, each of them once, and `answers` is what the response to
      each batch lists, by the positions it names. Nothing is assumed of the responses. */
  ghost predicate IsCompletion<V, E>(answers: seq<seq<V>>, outcomes: seq<Outcome<V, E>>) {
    && multiset(BatchNumbers(outcomes)) == multiset(Range(|answers|))
    && forall k :: 0 <= k < |outcomes| && outcomes[k].response.Done? ==>
         outcomes[k].batch < |answers| && InOrder(outcomes[k].response.value) == answers[outcomes[k].batch]
  }

  /** Every response has the embedding of every text of its batch, listed in any order. */
  ghost predicate AreComplete<T(!new), V, E>(texts: seq<T>, size: nat, embed: T -> V, outcomes: seq<Outcome<V, E>>)
    requires size > 0
  {
    var batches := Chunks(texts, size);
    forall k :: 0 <= k < |outcomes| && outcomes[k].response.Done? ==>
      && outcomes[k].batch < |batches|
      && multiset(outcomes[k].response.value) == multiset(Enumerate(Map(embed, batches[outcomes[k].batch])))
  }

  function BatchNumbers<V, E>(outcomes: seq<Outcome<V, E>>): seq<nat> {
    Map((o: Outcome<V, E>) => o.batch, outcomes)
  }

  lemma {:induction false} FlattenChunks<T>(xs: seq<T>, size: nat)
    requires size > 0
    ensures Flatten(Chunks(xs, size)) == xs
    decreases |xs|
  {
    if |xs| > size {
      var chunks := [xs[..size]] + Chunks(xs[size..], size);
      FlattenChunks(xs[size..], size);
      assert chunks[1..] == Chunks(xs[size..], size);
      assert xs == xs[..size] + xs[size..];
    } else if xs != [] {
      assert Flatten([xs]) == xs + Flatten([xs][1..]);
    }
  }

  lemma {:induction false} FlattenMapped<T, V>(embed: T -> V, batches: seq<seq<T>>)
    ensures Flatten(Map(b => Map(embed, b), batches)) == Map(embed, Flatten(batches))
  {
    var f := b => Map(embed, b);
    if batches != [] {
      FlattenMapped(embed, batches[1..]);
      assert Map(f, batches) == [f(batches[0])] + Map(f, batches[1..]);
      MapConcat(embed, batches[0], Flatten(batches[1..]));
    }
  }

  /** Sorting by position undoes any reordering of an enumerated sequence. */
  lemma {:induction false} InOrderRestores<V(!new)>(data: seq<Indexed<V>>, values: seq<V>)
    requires multiset(data) == multiset(Enumerate(values))
    ensures InOrder(data) == values
  {
    var e := Enumerate(values);
    assert TotalOrder(ByIndex<V>);
    forall a, b | a in data && b in data && ByIndex(a, b) && ByIndex(b, a) ensures a == b {
      assert a in multiset(e) && b in multiset(e);
    }
    SortSorts(data, ByIndex);
    forall a | a in Sort(data, ByIndex) ensures a in data {
      assert a in multiset(Sort(data, ByIndex));
    }
    SortedUnique(Sort(data, ByIndex), e, ByIndex);
  }

  lemma {:induction false} CollectedIsPermutation<V(!new), E>(answers: seq<seq<V>>, outcomes: seq<Outcome<V, E>>)
    requires IsCompletion(answers, outcomes) && FirstError(outcomes).Done?
    ensures multiset(Collected(outcomes)) == multiset(Enumerate(answers))
  {
    hide InOrder;
    var g := (i: nat) => At(i, if i < |answers| then answers[i] else []);
    var order := BatchNumbers(outcomes);
    assert forall k :: 0 <= k < |outcomes| ==> Collected(outcomes)[k] == Map(g, order)[k];
    assert Collected(outcomes) == Map(g, order);
    EnumerateByRange(answers, g);
    MapPermutes(g, order, Range(|answers|));
  }

  lemma {:induction false} EnumerateByRange<T>(xs: seq<T>, g: nat -> Indexed<T>)
    requires forall i: nat :: i < |xs| ==> g(i) == At(i, xs[i])
    ensures Enumerate(xs) == Map(g, Range(|xs|))
  {
    var (l, r) := (Enumerate(xs), Map(g, Range(|xs|)));
    assert forall i :: 0 <= i < |l| ==> l[i] == r[i];
  }

  /** Whatever order the batches finish in, the answers come out in the order of the batches. */
  lemma {:induction false} AnswersKeepOrder<V(!new), E>(answers: seq<seq<V>>, outcomes: seq<Outcome<V, E>>)
    requires IsCompletion(answers, outcomes) && FirstError(outcomes).Done?
    ensures Flatten(InOrder(Collected(outcomes))) == Flatten(answers)
  {
    CollectedIsPermutation(answers, outcomes);
    InOrderRestores(Collected(outcomes), answers);
  }

  lemma {:induction false} CompleteAnswers<T(!new), V(!new), E>(
      texts: seq<T>, size: nat, embed: T -> V, answers: seq<seq<V>>, outcomes: seq<Outcome<V, E>>, i: nat)
    requires size > 0 && IsCompletion(answers, outcomes) && AreComplete(texts, size, embed, outcomes)
    requires FirstError(outcomes).Done? && i < |answers| == |Chunks(texts, size)|
    ensures answers[i] == Map(embed, Chunks(texts, size)[i])
  {
    hide InOrder, Chunks;
    var numbers := BatchNumbers(outcomes);
    assert Range(|answers|)[i] in multiset(Range(|answers|));
    assert i in multiset(numbers);
    var k :| 0 <= k < |numbers| && numbers[k] == i;
    InOrderRestores(outcomes[k].response.value, Map(embed, Chunks(texts, size)[i]));
  }

  /** With complete responses, for every completion order and every batch size, what comes out is the embedding
      of every text in the order of the texts. */
  lemma {:induction false} EmbeddingsKeepOrder<T(!new), V(!new), E>(
      texts: seq<T>, size: nat, embed: T -> V, answers: seq<seq<V>>, outcomes: seq<Outcome<V, E>>)
    requires size > 0 && |answers| == |Chunks(texts, size)|
    requires IsCompletion(answers, outcomes) && AreComplete(texts, size, embed, outcomes) && FirstError(outcomes).Done?
    ensures Flatten(answers) == Map(embed, texts)
  {
    var batches := Chunks(texts, size);
    forall i | 0 <= i < |answers| ensures answers[i] == Map(b => Map(embed, b), batches)[i] {
      CompleteAnswers(texts, size, embed, answers, outcomes, i);
    }
    assert answers == Map(b => Map(embed, b), batches);
    FlattenMapped(embed, batches);
    FlattenChunks(texts, size);
  }

  /** `embed_documents`: nothing to do for no texts; otherwise the finished batches are reassembled. Whatever the
      responses hold, the call succeeds exactly when every batch did, and then joins the answers in batch order;
      where every response is complete, that is the embedding of every text, in order. */
  method EmbedDocuments<T(!new), V(!new), E>(
      texts: seq<T>, size: nat, ghost embed: T -> V, ghost answers: seq<seq<V>>, outcomes: seq<Outcome<V, E>>)
    returns (r: Result<seq<V>, E>)
    requires size > 0 && |answers| == |Chunks(texts, size)| && IsCompletion(answers, outcomes)
    ensures r.Done? <==> texts == [] || forall k :: 0 <= k < |outcomes| ==> outcomes[k].response.Done?
    ensures r.Done? ==> r.value == Flatten(answers)
    ensures r.Done? && AreComplete(texts, size, embed, outcomes) ==> r.value == Map(embed, texts)
    ensures r.Fail? ==> exists k :: 0 <= k < |outcomes| && outcomes[k].response == Fail(r.error)
                                    && forall j :: 0 <= j < k ==> outcomes[j].response.Done?
  {
    hide IsCompletion, AreComplete, InOrder, Collected;
    if texts == [] {
      return Done([]);
    }
    if FirstError(outcomes).Done? {
      AnswersKeepOrder(answers, outcomes);
      if AreComplete(texts, size, embed, outcomes) {
        EmbeddingsKeepOrder(texts, size, embed, answers, outcomes);
      }
    }
    FirstErrorIsFirst(outcomes);
    r := Reassemble(outcomes);
  }

  lemma {:induction false} FirstErrorIsFirst<V, E>(outcomes: seq<Outcome<V, E>>)
    ensures FirstError(outcomes).Fail? ==>
              exists k :: 0 <= k < |outcomes| && outcomes[k].response == Fail(FirstError(outcomes).error)
                          && forall j :: 0 <= j < k ==> outcomes[j].response.Done?
  {
    if outcomes != [] && outcomes[0].response.Done? && FirstError(outcomes).Fail? {
      FirstErrorIsFirst(outcomes[1..]);
      var k :| 0 <= k < |outcomes[1..]| && outcomes[1..][k].response == Fail(FirstError(outcomes[1..]).error)
               && forall j :: 0 <= j < k ==> outcomes[1..][j].response.Done?;
      assert outcomes[k + 1] == outcomes[1..][k];
      forall j | 0 <= j < k + 1 ensures outcomes[j].response.Done? {
        assert j > 0 ==> outcomes[j] == outcomes[1..][j - 1];
      }
    }
  }
}
