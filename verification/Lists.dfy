/** Lists and their multisets. */
module Lists {

  predicate Ascending(xs: seq<nat>) {
    forall i, j | 0 <= i < j < |xs| :: xs[i] < xs[j]
  }

  function Without<T>(xs: seq<T>, k: nat): seq<T>
    requires k < |xs|
  {
    xs[..k] + xs[k + 1..]
  }

  lemma TakenOut<T>(xs: seq<T>, k: nat)
    requires k < |xs|
    ensures multiset(xs) == multiset(Without(xs, k)) + multiset{xs[k]}
  {
    assert xs == xs[..k] + [xs[k]] + xs[k + 1..];
  }

  lemma LastOf<T>(xs: seq<T>) returns (front: seq<T>, last: T)
    requires xs != []
    ensures xs == front + [last] && |front| < |xs| && multiset(xs) == multiset(front) + multiset{last}
  {
    front, last := xs[..|xs| - 1], xs[|xs| - 1];
    assert xs == front + [last];
  }

  lemma FirstOf<T>(xs: seq<T>) returns (first: T, rest: seq<T>)
    requires xs != []
    ensures xs == [first] + rest && |rest| < |xs| && multiset(xs) == multiset(rest) + multiset{first}
  {
    first, rest := xs[0], xs[1..];
    assert xs == [first] + rest;
  }

  lemma Grouped<T>(xs: seq<T>, ys: seq<T>, zs: seq<T>)
    ensures xs + (ys + zs) == (xs + ys) + zs
  {
  }

  lemma BroughtForward<T>(xs: seq<T>, x: T, ys: seq<T>)
    ensures multiset([] + [x] + (xs + ys)) == multiset(xs + [x] + ys)
  {
  }

  lemma OneLess<T>(xs: multiset<T>, ys: multiset<T>, x: T)
    requires xs + multiset{x} <= ys + multiset{x}
    ensures xs <= ys
  {
    forall y | y in xs
      ensures xs[y] <= ys[y]
    {
      assert (xs + multiset{x})[y] <= (ys + multiset{x})[y];
    }
  }

  lemma Member<T>(x: T, xs: seq<T>)
    ensures x in xs <==> x in multiset(xs)
  {
  }

  /** Some elements of a list can be completed to all of it. */
  lemma {:induction false} Completed<T>(all: seq<T>, xs: seq<T>) returns (ys: seq<T>)
    requires multiset(xs) <= multiset(all)
    ensures multiset(xs + ys) == multiset(all)
    decreases |xs|
  {
    if xs == [] {
      ys := all;
      assert xs + ys == all;
    } else {
      var x, rest := FirstOf(xs);
      Member(x, all);
      var i :| 0 <= i < |all| && all[i] == x;
      TakenOut(all, i);
      OneLess(multiset(rest), multiset(Without(all, i)), x);
      hide Without;
      ys := Completed(Without(all, i), rest);
      Grouped([x], rest, ys);
      assert multiset([x] + (rest + ys)) == multiset{x} + multiset(rest + ys);
    }
  }

  function Sum<T>(f: T -> nat, xs: seq<T>): nat {
    if xs == [] then 0 else f(xs[0]) + Sum(f, xs[1..])
  }

  lemma {:induction false} SumParts<T>(f: T -> nat, xs: seq<T>, ys: seq<T>)
    ensures Sum(f, xs + ys) == Sum(f, xs) + Sum(f, ys)
  {
    if xs == [] {
      assert xs + ys == ys;
    } else {
      assert (xs + ys)[1..] == xs[1..] + ys;
      SumParts(f, xs[1..], ys);
    }
  }

  lemma {:induction false} SumReordered<T>(f: T -> nat, xs: seq<T>, ys: seq<T>)
    requires multiset(xs) == multiset(ys)
    ensures Sum(f, xs) == Sum(f, ys)
    decreases |xs|
  {
    if xs == [] {
      assert |multiset(ys)| == 0;
    } else {
      var x, rest := FirstOf(xs);
      Member(x, ys);
      var i :| 0 <= i < |ys| && ys[i] == x;
      TakenOut(ys, i);
      OneLess(multiset(rest), multiset(Without(ys, i)), x);
      OneLess(multiset(Without(ys, i)), multiset(rest), x);
      SumReordered(f, rest, Without(ys, i));
      assert xs[1..] == rest;
      assert ys == ys[..i] + ([x] + ys[i + 1..]);
      SumParts(f, ys[..i], [x] + ys[i + 1..]);
      SumParts(f, ys[..i], ys[i + 1..]);
      assert ([x] + ys[i + 1..])[1..] == ys[i + 1..];
    }
  }
}
