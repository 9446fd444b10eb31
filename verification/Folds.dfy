// Left folds, with functions as parameters so that their laws are proved once.
module Folds {
  function FoldLeft<S, T>(f: (S, T) -> S, s: S, items: seq<T>): S
    decreases items
  {
    if items == [] then s else FoldLeft(f, f(s, items[0]), items[1..])
  }

  lemma {:induction false} FoldLeftInjective<S(!new), T(!new)>(f: (S, T) -> S, s: S, s': S, items: seq<T>)
    requires forall x, y, t :: f(x, t) == f(y, t) ==> x == y
    requires FoldLeft(f, s, items) == FoldLeft(f, s', items)
    ensures s == s'
    decreases items
  {
    if items != [] {
      FoldLeftInjective(f, f(s, items[0]), f(s', items[0]), items[1..]);
    }
  }

  lemma {:induction false} FoldLeftConcat<S, T>(f: (S, T) -> S, s: S, first: seq<T>, second: seq<T>)
    ensures FoldLeft(f, s, first + second) == FoldLeft(f, FoldLeft(f, s, first), second)
    decreases first
  {
    if first == [] {
      assert first + second == second;
    } else {
      assert (first + second)[1..] == first[1..] + second;
      FoldLeftConcat(f, f(s, first[0]), first[1..], second);
    }
  }

  lemma FoldLeftFour<S, T>(f: (S, T) -> S, s: S, items: seq<T>)
    requires |items| == 4
    ensures FoldLeft(f, s, items) == f(f(f(f(s, items[0]), items[1]), items[2]), items[3])
  {
    var one, two, three := items[1..], items[1..][1..], items[1..][1..][1..];
    assert one[0] == items[1] && two[0] == items[2] && three[0] == items[3] && three[1..] == [];
    var s2 := f(f(s, items[0]), items[1]);
    assert FoldLeft(f, s2, two) == FoldLeft(f, f(f(s2, two[0]), three[0]), []);
  }

  // What every step keeps, relative to the items consumed so far, the whole fold keeps.
  lemma {:induction false} FoldLeftKeeps<S(!new), T(!new)>(
      f: (S, T) -> S, inv: (S, seq<T>) -> bool, s: S, done: seq<T>, more: seq<T>)
    requires forall x, d, t {:trigger inv(x, d), f(x, t)} :: inv(x, d) ==> inv(f(x, t), d + [t])
    requires inv(s, done)
    ensures inv(FoldLeft(f, s, more), done + more)
    decreases more
  {
    if more == [] {
      assert done + more == done;
    } else {
      FoldLeftKeeps(f, inv, f(s, more[0]), done + [more[0]], more[1..]);
      assert done + [more[0]] + more[1..] == done + more;
    }
  }

  // A fold whose every step appends what it is given to a view of its state collects it all.
  lemma {:induction false} FoldCollects<A(!new), B(!new)>(f: (A, B) -> A, view: A -> seq<B>, a: A, bs: seq<B>)
    requires forall x, y :: view(f(x, y)) == view(x) + [y]
    ensures view(FoldLeft(f, a, bs)) == view(a) + bs
    decreases bs
  {
    if bs != [] {
      FoldCollects(f, view, f(a, bs[0]), bs[1..]);
      assert view(a) + [bs[0]] + bs[1..] == view(a) + bs;
    }
  }
}
