/** The "last match wins" scan that two loops of the program perform: walk the
    lines in order and overwrite a variable whenever a line yields a value. */
module LastWins {
  import opened Wrappers

  /** The value yielded by the last element of `xs` for which `f` yields one,
      or `dflt` when none does. */
  function LastMatch<A, T>(xs: seq<A>, f: A -> Option<T>, dflt: T): T
    decreases |xs|
  {
    if xs == [] then dflt
    else match f(xs[|xs| - 1])
      case Some(v) => v
      case None => LastMatch(xs[..|xs| - 1], f, dflt)
  }

  /** `j` is the index of the last element of `xs` that yields a value. */
  ghost predicate IsLastHit<A, T>(xs: seq<A>, f: A -> Option<T>, j: int)
  {
    0 <= j < |xs| && f(xs[j]).Some? && forall k | j < k < |xs| :: f(xs[k]).None?
  }

  /** With no matching element the result is the default. */
  lemma {:induction false} LastMatchNoHit<A, T>(xs: seq<A>, f: A -> Option<T>, dflt: T)
    requires forall i | 0 <= i < |xs| :: f(xs[i]).None?
    ensures LastMatch(xs, f, dflt) == dflt
    decreases |xs|
  {
    if xs != [] {
      var n := |xs| - 1;
      assert f(xs[n]).None?;
      assert forall i | 0 <= i < n :: xs[..n][i] == xs[i];
      LastMatchNoHit(xs[..n], f, dflt);
    }
  }

  /** Otherwise the result is the value of the last matching element. */
  lemma {:induction false} LastMatchLastHit<A, T>(xs: seq<A>, f: A -> Option<T>, dflt: T, j: int)
    requires IsLastHit(xs, f, j)
    ensures LastMatch(xs, f, dflt) == f(xs[j]).value
    decreases |xs|
  {
    var n := |xs| - 1;
    if j < n {
      assert f(xs[n]).None?;
      assert forall k | j < k < n :: xs[..n][k] == xs[k];
      assert IsLastHit(xs[..n], f, j);
      LastMatchLastHit(xs[..n], f, dflt, j);
    }
  }

  /** An element that matches has a last matching element at or after it. */
  lemma {:induction false} LastHitExists<A, T>(xs: seq<A>, f: A -> Option<T>, i: int)
    requires 0 <= i < |xs| && f(xs[i]).Some?
    ensures exists j | i <= j :: IsLastHit(xs, f, j)
    decreases |xs| - i
  {
    if forall k | i < k < |xs| :: f(xs[k]).None? {
      assert IsLastHit(xs, f, i);
    } else {
      var k :| i < k < |xs| && f(xs[k]).Some?;
      LastHitExists(xs, f, k);
    }
  }

  /** The result is the default or the value of some matching element. */
  lemma LastMatchFrom<A, T>(xs: seq<A>, f: A -> Option<T>, dflt: T)
    ensures LastMatch(xs, f, dflt) == dflt
         || exists i | 0 <= i < |xs| :: f(xs[i]) == Some(LastMatch(xs, f, dflt))
  {
    if i :| 0 <= i < |xs| && f(xs[i]).Some? {
      LastHitExists(xs, f, i);
      var j :| i <= j && IsLastHit(xs, f, j);
      LastMatchLastHit(xs, f, dflt, j);
    } else {
      LastMatchNoHit(xs, f, dflt);
    }
  }
}
