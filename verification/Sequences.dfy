/** Sequence helpers shared by the modules. */
module Sequences {

  function Map<A, B>(f: A -> B, xs: seq<A>): (ys: seq<B>)
    ensures |ys| == |xs| && forall i :: 0 <= i < |xs| ==> ys[i] == f(xs[i])
  {
    if xs == [] then [] else [f(xs[0])] + Map(f, xs[1..])
  }

  lemma {:induction false} MapConcat<A, B>(f: A -> B, a: seq<A>, b: seq<A>)
    ensures Map(f, a + b) == Map(f, a) + Map(f, b)
  {
    var (l, r) := (Map(f, a + b), Map(f, a) + Map(f, b));
    assert |l| == |r| && forall i :: 0 <= i < |l| ==> l[i] == r[i];
  }

  lemma {:induction false} Regroup<T>(a: seq<T>, b: seq<T>, c: seq<T>)
    ensures a + b + c == a + (b + c)
  {
  }

  lemma {:induction false} MapWithout<A, B>(f: A -> B, xs: seq<A>, i: nat, rest: seq<A>)
    requires i < |xs| && rest == xs[..i] + xs[i + 1..]
    ensures multiset(rest) == multiset(xs) - multiset{xs[i]}
    ensures multiset(Map(f, xs)) == multiset(Map(f, rest)) + multiset{f(xs[i])}
  {
    var a, x, c := xs[..i], xs[i], xs[i + 1..];
    assert xs == a + [x] + c;
    MapConcat(f, a + [x], c);
    MapConcat(f, a, [x]);
    MapConcat(f, a, c);
    assert Map(f, [x]) == [f(x)];
  }

  lemma {:induction false} MapPermutes<A, B>(f: A -> B, a: seq<A>, b: seq<A>)
    requires multiset(a) == multiset(b)
    ensures multiset(Map(f, a)) == multiset(Map(f, b))
    decreases |a|
  {
    hide Map;
    assert |a| == |multiset(a)| && |b| == |multiset(b)|;
    if a != [] {
      var x := a[0];
      assert x in multiset(b);
      var i :| 0 <= i < |b| && b[i] == x;
      var rest := b[..i] + b[i + 1..];
      MapWithout(f, a, 0, a[1..]);
      MapWithout(f, b, i, rest);
      MapPermutes(f, a[1..], rest);
    } else {
      assert a == b;
    }
  }
}
