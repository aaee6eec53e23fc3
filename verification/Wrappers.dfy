/** Option and Result, used in place of the sources' null values and exceptions, and laws of sequences. */
module Wrappers {
  datatype Option<+T> = None | Some(value: T)

  datatype Result<+T, +E> = Success(value: T) | Failure(error: E)

  function Mapped<T, U>(f: T -> U, s: seq<T>): (r: seq<U>)
    ensures |r| == |s| && forall i :: 0 <= i < |s| ==> r[i] == f(s[i])
  {
    seq(|s|, i requires 0 <= i < |s| => f(s[i]))
  }

  lemma MappedCons<T, U>(f: T -> U, x: T, s: seq<T>)
    ensures Mapped(f, [x] + s) == [f(x)] + Mapped(f, s)
  {
  }

  lemma MappedSnoc<T, U>(f: T -> U, s: seq<T>, x: T)
    ensures Mapped(f, s + [x]) == Mapped(f, s) + [f(x)]
  {
  }

  /** Positions below `n` in their order, none twice. */
  ghost predicate Increasing(at: seq<nat>, n: nat) {
    && (forall k, l :: 0 <= k < l < |at| ==> at[k] < at[l])
    && forall k :: 0 <= k < |at| ==> at[k] < n
  }

  lemma IncreasingSnoc(at: seq<nat>, n: nat)
    requires Increasing(at, n)
    ensures Increasing(at, n + 1) && Increasing(at + [n], n + 1)
  {
    var more := at + [n];
    forall k, l | 0 <= k < l < |more| ensures more[k] < more[l] {
      assert more[k] == at[k] && (l < |at| ==> more[l] == at[l]);
    }
  }

  lemma {:induction false} IncreasingShort(at: seq<nat>, n: nat)
    requires Increasing(at, n)
    ensures |at| <= n
  {
    if at != [] {
      var m := |at| - 1;
      assert Increasing(at[..m], at[m]);
      IncreasingShort(at[..m], at[m]);
    }
  }

  lemma IncreasingEnd(at: seq<nat>, n: nat)
    requires Increasing(at, n + 1) && n in at
    ensures at[|at| - 1] == n
  {
    var k :| 0 <= k < |at| && at[k] == n;
    assert at[|at| - 1] <= n;
  }

  lemma IncreasingInit(at: seq<nat>, n: nat)
    requires Increasing(at, n + 1) && at != [] && at[|at| - 1] == n
    ensures Increasing(at[..|at| - 1], n)
  {
  }

  lemma IncreasingLess(at: seq<nat>, n: nat)
    requires Increasing(at, n + 1) && n !in at
    ensures Increasing(at, n)
  {
    assert forall k :: 0 <= k < |at| ==> at[k] in at;
  }

  lemma Associate<T>(a: seq<T>, b: seq<T>, c: seq<T>)
    ensures (a + b) + c == a + (b + c)
  {
  }
}
