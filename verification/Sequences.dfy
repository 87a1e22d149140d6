/** Facts about concatenation that proofs by cases should not have to rediscover. */
module Sequences {

  lemma Associative<T>(a: seq<T>, b: seq<T>, c: seq<T>)
    ensures (a + b) + c == a + (b + c)
  {
  }

  lemma SplitLast<T>(a: seq<T>, b: seq<T>)
    requires b != []
    ensures b == b[..|b| - 1] + [b[|b| - 1]]
    ensures a + b == (a + b[..|b| - 1]) + [b[|b| - 1]]
  {
  }

  lemma EmptyIsNeutral<T>(a: seq<T>)
    ensures a + [] == a && [] + a == a
  {
  }

  lemma TakeOfDrop<T>(s: seq<T>, start: nat, n: nat)
    requires start + n <= |s|
    ensures s[start..][..n] == s[start..start + n]
  {
  }

  lemma DropOfDrop<T>(s: seq<T>, start: nat, n: nat)
    requires start + n <= |s|
    ensures s[start..][n..] == s[start + n..]
  {
  }

  lemma CutOpen<T>(s: seq<T>, n: nat)
    requires n < |s|
    ensures s == s[..n] + [s[n]] + s[n + 1..]
  {
  }

  lemma TakeOneMore<T>(s: seq<T>, k: nat)
    requires k < |s|
    ensures s[..k] + [s[k]] == s[..k + 1]
  {
  }

  lemma TakeAll<T>(s: seq<T>)
    ensures s[..|s|] == s
  {
  }

  lemma SameFront<T>(a: seq<T>, x: seq<T>, y: seq<T>)
    ensures a + x == a + y <==> x == y
  {
    assert (a + x)[|a|..] == x && (a + y)[|a|..] == y;
  }

  predicate Distinct<T(==)>(s: seq<T>) {
    forall i, j :: 0 <= i < j < |s| ==> s[i] != s[j]
  }

  lemma DistinctGrows<T>(before: seq<T>, x: T)
    ensures Distinct(before + [x]) <==> Distinct(before) && x !in before
  {
    var s := before + [x];
    assert forall i :: 0 <= i < |before| ==> s[i] == before[i];
    if Distinct(s) {
      forall i, j | 0 <= i < j < |before|
        ensures before[i] != before[j]
      {
        assert s[i] != s[j];
      }
      forall i | 0 <= i < |before|
        ensures before[i] != x
      {
        assert s[i] != s[|before|];
      }
    }
    if Distinct(before) && x !in before {
      forall i, j | 0 <= i < j < |s|
        ensures s[i] != s[j]
      {
        assert before[i] in before;
      }
    }
  }

  /** Different things from a set are no more than the set has. */
  lemma {:induction false} DistinctFitsIn<T>(s: seq<T>, all: set<T>)
    requires Distinct(s) && forall x :: x in s ==> x in all
    ensures |s| <= |all|
  {
    if s != [] {
      var (before, last) := (s[..|s| - 1], s[|s| - 1]);
      forall x | x in before
        ensures x in all - {last}
      {
        var i :| 0 <= i < |before| && before[i] == x;
        assert s[i] == x;
      }
      DistinctFitsIn(before, all - {last});
    }
  }

  function NumbersBelow(n: nat): set<nat> {
    if n == 0 then {} else NumbersBelow(n - 1) + {n - 1}
  }

  lemma {:induction false} NumbersBelowAre(n: nat, k: nat)
    ensures k in NumbersBelow(n) <==> k < n
  {
    if n > 0 {
      NumbersBelowAre(n - 1, k);
    }
  }

  lemma {:induction false} NumbersBelowCount(n: nat)
    ensures |NumbersBelow(n)| == n
  {
    if n > 0 {
      NumbersBelowCount(n - 1);
      NumbersBelowAre(n - 1, n - 1);
    }
  }

  lemma DistinctBelow(ns: seq<nat>, n: nat)
    requires Distinct(ns) && forall i :: 0 <= i < |ns| ==> ns[i] < n
    ensures |ns| <= n
  {
    forall k | k in ns
      ensures k in NumbersBelow(n)
    {
      NumbersBelowAre(n, k);
    }
    DistinctFitsIn(ns, NumbersBelow(n));
    NumbersBelowCount(n);
  }
}
