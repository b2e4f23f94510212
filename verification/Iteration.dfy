/** Applying a partial step again and again, and exactly when that goes on for ever. */
module Iteration {
  import opened Basics

  /** What n steps from x come to, if there are that many. */
  function Iterate<T>(step: T -> Option<T>, x: T, n: nat): Option<T>
    decreases n
  {
    if n == 0 then Some(x)
    else
      match step(x)
      case None => None
      case Some(y) => Iterate(step, y, n - 1)
  }

  lemma {:induction false} IterateMore<T>(step: T -> Option<T>, x: T, m: nat, n: nat)
    ensures var y := Iterate(step, x, m);
            Iterate(step, x, m + n) == if y.Some? then Iterate(step, y.value, n) else None
    decreases m
  {
    if m > 0 && step(x).Some? {
      IterateMore(step, step(x).value, m - 1, n);
    }
  }

  /** What comes back to itself goes on for ever. */
  lemma {:induction false} ComesBack<T>(step: T -> Option<T>, x: T, k: nat, n: nat)
    requires k > 0 && Iterate(step, x, k) == Some(x)
    ensures Iterate(step, x, n).Some?
    decreases n
  {
    if n < k {
      IterateMore(step, x, n, k - n);
    } else {
      IterateMore(step, x, k, n - k);
      ComesBack(step, x, k, n - k);
    }
  }

  lemma {:induction false} Pigeonhole<K>(keys: seq<K>, all: set<K>) returns (i: nat, j: nat)
    requires |keys| > |all| && forall k :: 0 <= k < |keys| ==> keys[k] in all
    ensures i < j < |keys| && keys[i] == keys[j]
    decreases |keys|
  {
    var n := |keys| - 1;
    if keys[n] in keys[..n] {
      i :| 0 <= i < n && keys[..n][i] == keys[n];
      j := n;
    } else {
      i, j := Pigeonhole(keys[..n], all - {keys[n]});
    }
  }

  /** The key of what n steps come to. */
  function KeyAt<T, K>(step: T -> Option<T>, key: T -> Option<K>, x: T, n: nat): Option<K> {
    var y := Iterate(step, x, n);
    if y.Some? then key(y.value) else None
  }

  predicate SameKey<T, K(==)>(step: T -> Option<T>, key: T -> Option<K>, x: T, i: nat, j: nat) {
    KeyAt(step, key, x, i).Some? && KeyAt(step, key, x, i) == KeyAt(step, key, x, j)
  }

  /** There is a step exactly where there is a key, the key determines the step, and these are all keys. */
  ghost predicate Determines<T(!new), K>(key: T -> Option<K>, all: set<K>, step: T -> Option<T>) {
    && (forall x: T :: step(x).Some? <==> key(x).Some?)
    && (forall x: T, y: T :: key(x).Some? && key(x) == key(y) ==> step(x) == step(y))
    && (forall x: T :: key(x).Some? ==> key(x).value in all)
  }

  /** Within as many steps as there are keys, a key comes twice. */
  ghost predicate Cycles<T, K>(step: T -> Option<T>, key: T -> Option<K>, all: set<K>, x: T) {
    exists i: nat, j: nat :: i < j <= |all| && SameKey(step, key, x, i, j)
  }

  lemma SameKeyReturns<T(!new), K>(step: T -> Option<T>, key: T -> Option<K>, all: set<K>, x: T, i: nat, j: nat, n: nat)
    requires Determines(key, all, step) && i < j && SameKey(step, key, x, i, j)
    ensures Iterate(step, x, n).Some?
  {
    var y, z := Iterate(step, x, i).value, Iterate(step, x, j).value;
    var next := step(y).value;
    IterateMore(step, x, i, 1);
    IterateMore(step, x, j, 1);
    assert Iterate(step, y, 1) == Iterate(step, next, 0) && Iterate(step, z, 1) == Iterate(step, next, 0);
    IterateMore(step, x, i + 1, j - i);
    ComesBack(step, next, j - i, n);
    IterateMore(step, x, i + 1, n);
    IterateMore(step, x, n, i + 1);
  }

  lemma KeyBefore<T(!new), K>(step: T -> Option<T>, key: T -> Option<K>, all: set<K>, x: T, i: nat, n: nat)
    requires Determines(key, all, step) && i < n && Iterate(step, x, n).Some?
    ensures KeyAt(step, key, x, i).Some? && KeyAt(step, key, x, i).value in all
  {
    IterateMore(step, x, i, n - i);
  }

  lemma EndlessCycles<T(!new), K>(step: T -> Option<T>, key: T -> Option<K>, all: set<K>, x: T)
    requires Determines(key, all, step) && Iterate(step, x, |all| + 1).Some?
    ensures Cycles(step, key, all, x)
  {
    var n := |all| + 1;
    forall i: nat | i < n
      ensures KeyAt(step, key, x, i).Some? && KeyAt(step, key, x, i).value in all
    {
      KeyBefore(step, key, all, x, i, n);
    }
    var keys := seq(n, i requires 0 <= i < n => KeyAt(step, key, x, i).value);
    var i, j := Pigeonhole(keys, all);
    assert SameKey(step, key, x, i, j);
  }

  /** Going on for more steps than there are keys, going on for ever and coming to a key twice are the same. */
  lemma EndlessExactly<T(!new), K>(step: T -> Option<T>, key: T -> Option<K>, all: set<K>, x: T)
    requires Determines(key, all, step)
    ensures Iterate(step, x, |all| + 1).Some? <==> Cycles(step, key, all, x)
    ensures Cycles(step, key, all, x) ==> forall n: nat :: Iterate(step, x, n).Some?
  {
    if Iterate(step, x, |all| + 1).Some? {
      EndlessCycles(step, key, all, x);
    }
    if Cycles(step, key, all, x) {
      var i: nat, j: nat :| i < j <= |all| && SameKey(step, key, x, i, j);
      forall n: nat
        ensures Iterate(step, x, n).Some?
      {
        SameKeyReturns(step, key, all, x, i, j, n);
      }
    }
  }
}
