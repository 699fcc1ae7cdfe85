// QList facts shared by the codecs: indexOf, duplicate-free lists and concatenated encodings.
module Lists {
  ghost predicate Distinct<T>(xs: seq<T>)
  {
    forall i, j | 0 <= i < j < |xs| :: xs[i] != xs[j]
  }

  // QList::indexOf
  function IndexOf<T(==)>(xs: seq<T>, x: T): int
  {
    if xs == [] then -1
    else if xs[0] == x then 0
    else
      var rest := IndexOf(xs[1..], x);
      if rest < 0 then -1 else rest + 1
  }

  lemma {:induction false} IndexOfAt<T>(xs: seq<T>, i: nat)
    requires Distinct(xs) && i < |xs|
    ensures IndexOf(xs, xs[i]) == i
  {
    if i > 0 {
      assert xs[i] == xs[1..][i - 1];
      IndexOfAt(xs[1..], i - 1);
    }
  }

  function Joined<T>(chunks: seq<seq<T>>): seq<T>
  {
    if chunks == [] then [] else chunks[0] + Joined(chunks[1..])
  }

  // The concatenation of f over a list.
  function Flat<A, B>(xs: seq<A>, f: A -> seq<B>): seq<B>
  {
    if xs == [] then [] else f(xs[0]) + Flat(xs[1..], f)
  }

  lemma FlatStep<A, B>(xs: seq<A>, f: A -> seq<B>, i: nat, tail: seq<B>)
    requires i < |xs|
    ensures Flat(xs[i..], f) + tail == f(xs[i]) + (Flat(xs[i + 1..], f) + tail)
  {
    assert xs[i..][1..] == xs[i + 1..];
  }

  lemma FlatStart<A, B>(xs: seq<A>, f: A -> seq<B>)
    ensures Flat(xs[..0], f) == []
  {
  }

  lemma FlatEnd<A, B>(xs: seq<A>, f: A -> seq<B>, tail: seq<B>)
    ensures Flat(xs[|xs|..], f) + tail == tail
  {
  }

  lemma {:induction false} FlatAppend<A, B>(xs: seq<A>, ys: seq<A>, f: A -> seq<B>)
    ensures Flat(xs + ys, f) == Flat(xs, f) + Flat(ys, f)
  {
    if xs == [] {
      assert xs + ys == ys;
    } else {
      assert (xs + ys)[1..] == xs[1..] + ys;
      FlatAppend(xs[1..], ys, f);
    }
  }

  lemma FlatSnoc<A, B>(xs: seq<A>, f: A -> seq<B>, i: nat)
    requires i < |xs|
    ensures Flat(xs[..i + 1], f) == Flat(xs[..i], f) + f(xs[i])
  {
    assert xs[..i + 1] == xs[..i] + [xs[i]];
    FlatAppend(xs[..i], [xs[i]], f);
    assert Flat([xs[i]], f) == f(xs[i]) + Flat([xs[i]][1..], f);
  }
}
