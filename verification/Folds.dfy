/** Sums and multiset unions of a measure over a sequence, and how they react
    when one element of the sequence is replaced. */
module Folds {

  function Sum<T>(f: T -> nat, s: seq<T>): nat {
    if s == [] then 0 else f(s[0]) + Sum(f, s[1..])
  }

  function Bag<T, U>(f: T -> multiset<U>, s: seq<T>): multiset<U> {
    if s == [] then multiset{} else f(s[0]) + Bag(f, s[1..])
  }

  lemma {:induction false} SumUpdate<T>(f: T -> nat, s: seq<T>, i: nat, x: T)
    requires i < |s|
    ensures Sum(f, s[i := x]) + f(s[i]) == Sum(f, s) + f(x)
  {
    if i == 0 {
      assert s[0 := x][1..] == s[1..];
    } else {
      assert s[i := x][1..] == s[1..][i - 1 := x];
      SumUpdate(f, s[1..], i - 1, x);
    }
  }

  lemma {:induction false} BagUpdate<T, U>(f: T -> multiset<U>, s: seq<T>, i: nat, x: T)
    requires i < |s|
    ensures Bag(f, s[i := x]) + f(s[i]) == Bag(f, s) + f(x)
  {
    if i == 0 {
      assert s[0 := x][1..] == s[1..];
    } else {
      var rest := s[1..];
      assert s[i := x][1..] == rest[i - 1 := x];
      BagUpdate(f, rest, i - 1, x);
      calc {
        Bag(f, s[i := x]) + f(s[i]);
        f(s[0]) + (Bag(f, rest[i - 1 := x]) + f(rest[i - 1]));
        f(s[0]) + (Bag(f, rest) + f(x));
        Bag(f, s) + f(x);
      }
    }
  }

  /** One element never contributes more than the whole. */
  lemma {:induction false} SumMember<T>(f: T -> nat, s: seq<T>, i: nat)
    requires i < |s|
    ensures f(s[i]) <= Sum(f, s)
  {
    if i > 0 {
      SumMember(f, s[1..], i - 1);
    }
  }

  lemma {:induction false} SumAppend<T>(f: T -> nat, s: seq<T>, x: T)
    ensures Sum(f, s + [x]) == Sum(f, s) + f(x)
  {
    if s == [] {
      assert [] + [x] == [x] && [x][1..] == [];
    } else {
      assert (s + [x])[1..] == s[1..] + [x];
      SumAppend(f, s[1..], x);
    }
  }

  /** Two different elements together contribute no more than the whole. */
  lemma {:induction false} SumTwo<T>(f: T -> nat, s: seq<T>, i: nat, j: nat)
    requires i < j < |s|
    ensures f(s[i]) + f(s[j]) <= Sum(f, s)
  {
    if i == 0 {
      SumMember(f, s[1..], j - 1);
    } else {
      SumTwo(f, s[1..], i - 1, j - 1);
    }
  }

  lemma {:induction false} BagMember<T, U>(f: T -> multiset<U>, s: seq<T>, i: nat)
    requires i < |s|
    ensures f(s[i]) <= Bag(f, s)
  {
    if i > 0 {
      BagMember(f, s[1..], i - 1);
    }
  }

  lemma {:induction false} BagTwo<T, U>(f: T -> multiset<U>, s: seq<T>, i: nat, j: nat)
    requires i < j < |s|
    ensures f(s[i]) + f(s[j]) <= Bag(f, s)
  {
    if i == 0 {
      BagMember(f, s[1..], j - 1);
    } else {
      BagTwo(f, s[1..], i - 1, j - 1);
    }
  }

  /** A positive sum has a positive summand. */
  lemma {:induction false} SumWitness<T>(f: T -> nat, s: seq<T>) returns (i: nat)
    requires Sum(f, s) > 0
    ensures i < |s| && f(s[i]) > 0
  {
    if f(s[0]) > 0 {
      i := 0;
    } else {
      i := SumWitness(f, s[1..]);
      i := i + 1;
    }
  }

  lemma {:induction false} SumZero<T>(f: T -> nat, s: seq<T>)
    requires forall i | 0 <= i < |s| :: f(s[i]) == 0
    ensures Sum(f, s) == 0
  {
    if s != [] {
      SumZero(f, s[1..]);
    }
  }

  lemma {:induction false} BagEmpty<T, U>(f: T -> multiset<U>, s: seq<T>)
    requires forall i | 0 <= i < |s| :: f(s[i]) == multiset{}
    ensures Bag(f, s) == multiset{}
  {
    if s != [] {
      BagEmpty(f, s[1..]);
    }
  }

  /** The size of a union of bags is the sum of the sizes measured by `g`. */
  lemma {:induction false} BagSize<T, U>(f: T -> multiset<U>, g: T -> nat, s: seq<T>)
    requires forall i | 0 <= i < |s| :: |f(s[i])| == g(s[i])
    ensures |Bag(f, s)| == Sum(g, s)
  {
    if s != [] {
      BagSize(f, g, s[1..]);
    }
  }

  /** A bag of the numbers 0..n-1, each exactly once, has n elements. */
  lemma {:induction false} EachOnceSize(m: multiset<int>, n: nat)
    requires forall x :: m[x] == if 0 <= x < n then 1 else 0
    ensures |m| == n
  {
    if n == 0 {
      forall x ensures m[x] == multiset{}[x] {
      }
      assert m == multiset{};
    } else {
      EachOnceSize(m - multiset{n - 1}, n - 1);
      assert m == (m - multiset{n - 1}) + multiset{n - 1};
    }
  }

  lemma ThreeBagsSize(f: multiset<int>, a: multiset<int>, b: multiset<int>, n: nat)
    requires forall x :: f[x] + a[x] + b[x] == if 0 <= x < n then 1 else 0
    ensures |f| + |a| + |b| == n
  {
    var m := f + a + b;
    forall x ensures m[x] == if 0 <= x < n then 1 else 0 {
      assert m[x] == f[x] + a[x] + b[x];
    }
    EachOnceSize(m, n);
  }

  lemma Prepend<T>(x: T, s: seq<T>)
    ensures multiset([x] + s) == multiset{x} + multiset(s)
  {
  }

  lemma Append<T>(s: seq<T>, x: T)
    ensures multiset(s + [x]) == multiset(s) + multiset{x}
  {
  }
}
