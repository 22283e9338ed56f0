/** Finite chains of states of any kind. */
module Chains {

  ghost predicate Chain<T(!new)>(next: (T, T) -> bool, tr: seq<T>) {
    |tr| > 0 && forall i :: 0 < i < |tr| ==> next(tr[i - 1], tr[i])
  }

  /** The second state can come after the first. */
  ghost predicate Connects<T(!new)>(next: (T, T) -> bool, a: T, b: T) {
    exists tr :: Chain(next, tr) && tr[0] == a && tr[|tr| - 1] == b
  }

  lemma ConnectsOn<T(!new)>(next: (T, T) -> bool, a: T, b: T, c: T)
    requires Connects(next, a, b) && Connects(next, b, c)
    ensures Connects(next, a, c)
  {
    var tr :| Chain(next, tr) && tr[0] == a && tr[|tr| - 1] == b;
    var up :| Chain(next, up) && up[0] == b && up[|up| - 1] == c;
    var all := tr + up[1..];
    forall i | 0 < i < |all| ensures next(all[i - 1], all[i]) {
      if i >= |tr| {
        assert all[i] == up[i - |tr| + 1] && all[i - 1] == up[i - |tr|];
      }
    }
    assert Chain(next, all) && all[0] == a && all[|all| - 1] == c;
  }

  lemma ConnectsOne<T(!new)>(next: (T, T) -> bool, a: T, b: T)
    requires next(a, b)
    ensures Connects(next, a, b)
  {
    assert Chain(next, [a, b]) && [a, b][0] == a && [a, b][|[a, b]| - 1] == b;
  }

  lemma {:induction false} ChainKeeps<T(!new)>(next: (T, T) -> bool, kept: T -> bool, tr: seq<T>, i: nat)
    requires Chain(next, tr) && i < |tr| && kept(tr[0])
    requires forall a, b :: kept(a) && next(a, b) ==> kept(b)
    ensures kept(tr[i])
  {
    if i > 0 {
      ChainKeeps(next, kept, tr, i - 1);
    }
  }

  lemma ConnectsKeeps<T(!new)>(next: (T, T) -> bool, kept: T -> bool, a: T, b: T)
    requires Connects(next, a, b) && kept(a)
    requires forall x, y :: kept(x) && next(x, y) ==> kept(y)
    ensures kept(b)
  {
    var tr :| Chain(next, tr) && tr[0] == a && tr[|tr| - 1] == b;
    ChainKeeps(next, kept, tr, |tr| - 1);
  }
}
