/** Concatenating the lists produced for each element of a list (`for ... of` loops that append). */
module Seqs {

  function Flatten<T, U>(f: T -> seq<U>, xs: seq<T>): seq<U>
    decreases |xs|
  {
    if xs == [] then [] else Flatten(f, xs[..|xs| - 1]) + f(xs[|xs| - 1])
  }

  /** An element of the result comes from some input element, and every produced element is there. */
  lemma {:induction false} FlattenMembers<T, U>(f: T -> seq<U>, xs: seq<T>, y: U)
    ensures y in Flatten(f, xs) <==> exists i :: 0 <= i < |xs| && y in f(xs[i])
    decreases |xs|
  {
    if xs != [] {
      var p := xs[..|xs| - 1];
      FlattenMembers(f, p, y);
      assert forall i :: 0 <= i < |p| ==> p[i] == xs[i];
    }
  }

  lemma {:induction false} FlattenConcat<T, U>(f: T -> seq<U>, a: seq<T>, b: seq<T>)
    ensures Flatten(f, a + b) == Flatten(f, a) + Flatten(f, b)
    decreases |b|
  {
    if b == [] {
      assert a + b == a;
    } else {
      assert (a + b)[..|a + b| - 1] == a + b[..|b| - 1];
      FlattenConcat(f, a, b[..|b| - 1]);
    }
  }

  lemma RemoveAt<T>(b: seq<T>, j: nat)
    requires j < |b|
    ensures multiset(b[..j] + b[j + 1..]) == multiset(b) - multiset{b[j]}
  {
    assert b == b[..j] + [b[j]] + b[j + 1..];
    assert multiset(b) == multiset(b[..j] + b[j + 1..]) + multiset{b[j]};
  }

  lemma FlattenInsert<T, U>(f: T -> seq<U>, l: seq<T>, x: T, r: seq<T>)
    ensures multiset(Flatten(f, l + [x] + r)) == multiset(Flatten(f, l + r)) + multiset(f(x))
  {
    FlattenConcat(f, l + [x], r);
    FlattenConcat(f, l, [x]);
    FlattenConcat(f, l, r);
    assert Flatten(f, [x]) == f(x) by {
      assert [x][..0] == [];
    }
  }

  /** Taking one element out of the input takes its part out of the output. */
  lemma FlattenRemoveAt<T, U>(f: T -> seq<U>, b: seq<T>, j: nat)
    requires j < |b|
    ensures multiset(Flatten(f, b)) == multiset(Flatten(f, b[..j] + b[j + 1..])) + multiset(f(b[j]))
  {
    SplitAt(b, j);
    FlattenInsert(f, b[..j], b[j], b[j + 1..]);
  }

  lemma SplitAt<T>(b: seq<T>, j: nat)
    requires j < |b|
    ensures b[..j] + [b[j]] + b[j + 1..] == b
  {
  }

  /** Taking the last element out of `a` and an equal element out of `b` keeps them permutations. */
  lemma RemoveMatching<T>(a: seq<T>, b: seq<T>, j: nat)
    requires multiset(a) == multiset(b) && a != [] && j < |b| && b[j] == a[|a| - 1]
    ensures multiset(a[..|a| - 1]) == multiset(b[..j] + b[j + 1..])
  {
    RemoveAt(b, j);
    RemoveAt(a, |a| - 1);
    assert a[..|a| - 1] + a[|a|..] == a[..|a| - 1];
  }

  /** Rearranging the input rearranges the output. */
  lemma {:induction false} FlattenPermutation<T, U>(f: T -> seq<U>, a: seq<T>, b: seq<T>)
    requires multiset(a) == multiset(b)
    ensures multiset(Flatten(f, a)) == multiset(Flatten(f, b))
    decreases |a|, 1
  {
    if a == [] {
      assert |b| == |multiset(b)| == 0;
    } else {
      FlattenPermutationLast(f, a, b);
    }
  }

  /** The inductive step: the last element of `a` sits somewhere in `b`. */
  lemma {:induction false} FlattenPermutationLast<T, U>(f: T -> seq<U>, a: seq<T>, b: seq<T>)
    requires multiset(a) == multiset(b) && a != []
    ensures multiset(Flatten(f, a)) == multiset(Flatten(f, b))
    decreases |a|, 0
  {
    var x := a[|a| - 1];
    var p := a[..|a| - 1];
    assert x in multiset(b);
    var j :| 0 <= j < |b| && b[j] == x;
    RemoveMatching(a, b, j);
    FlattenPermutation(f, p, b[..j] + b[j + 1..]);
    FlattenRemoveAt(f, b, j);
    assert multiset(Flatten(f, a)) == multiset(Flatten(f, p)) + multiset(f(x)) by {
      assert Flatten(f, a) == Flatten(f, p) + f(x);
    }
  }

  /** When every element produces exactly one, the result is the element-wise image. */
  lemma {:induction false} FlattenSingletons<T, U>(f: T -> seq<U>, xs: seq<T>)
    requires forall x :: |f(x)| == 1
    ensures |Flatten(f, xs)| == |xs|
    ensures forall i :: 0 <= i < |xs| ==> Flatten(f, xs)[i] == f(xs[i])[0]
    decreases |xs|
  {
    if xs != [] {
      var p := xs[..|xs| - 1];
      FlattenSingletons(f, p);
      assert forall i :: 0 <= i < |p| ==> p[i] == xs[i];
    }
  }

  /** An element of a list without repetitions occurs at most once. */
  lemma {:induction false} DistinctCount<T>(s: seq<T>, x: T)
    requires forall i, j :: 0 <= i < j < |s| ==> s[i] != s[j]
    ensures multiset(s)[x] == if x in s then 1 else 0
    decreases |s|
  {
    if s != [] {
      var p := s[..|s| - 1];
      assert s == p + [s[|s| - 1]];
      DistinctCount(p, x);
      if x == s[|s| - 1] {
        assert x !in p by {
          forall i | 0 <= i < |p| ensures p[i] != x {
            assert p[i] == s[i];
          }
        }
      }
    }
  }

  /** A list without repetitions has as many elements as its set of members. */
  lemma {:induction false} DistinctCard<T>(s: seq<T>)
    requires forall i, j :: 0 <= i < j < |s| ==> s[i] != s[j]
    ensures |set x | x in s| == |s|
    decreases |s|
  {
    if s != [] {
      var p := s[..|s| - 1];
      var x := s[|s| - 1];
      DistinctCard(p);
      assert (set y | y in s) == (set y | y in p) + {x} by {
        assert s == p + [x];
      }
      assert x !in p by {
        forall i | 0 <= i < |p| ensures p[i] != x {
          assert p[i] == s[i];
        }
      }
    }
  }

  /** A `Map` filled by `set(key(x), value(x))` for every `x` that `keep` accepts, in list order. */
  function AssocBy<T, K, V>(keep: T -> bool, key: T -> K, value: T -> V, xs: seq<T>): map<K, V>
    decreases |xs|
  {
    if xs == [] then map[]
    else
      var m := AssocBy(keep, key, value, xs[..|xs| - 1]);
      var x := xs[|xs| - 1];
      if keep(x) then m[key(x) := value(x)] else m
  }

  /** A key is present when some accepted element has it, and then holds the value of the last one. */
  lemma AssocBySpec<T, K, V>(keep: T -> bool, key: T -> K, value: T -> V, xs: seq<T>, k: K)
    ensures k in AssocBy(keep, key, value, xs) <==> exists i :: 0 <= i < |xs| && keep(xs[i]) && key(xs[i]) == k
    ensures forall i :: 0 <= i < |xs| && keep(xs[i]) && key(xs[i]) == k
                        && (forall j :: i < j < |xs| && keep(xs[j]) ==> key(xs[j]) != k)
              ==> k in AssocBy(keep, key, value, xs) && AssocBy(keep, key, value, xs)[k] == value(xs[i])
    ensures k in AssocBy(keep, key, value, xs) ==>
              exists i :: 0 <= i < |xs| && keep(xs[i]) && key(xs[i]) == k && AssocBy(keep, key, value, xs)[k] == value(xs[i])
  {
    AssocByKeys(keep, key, value, xs, k);
    AssocByValue(keep, key, value, xs, k);
    forall i | 0 <= i < |xs| && keep(xs[i]) && key(xs[i]) == k
                 && (forall j :: i < j < |xs| && keep(xs[j]) ==> key(xs[j]) != k)
      ensures k in AssocBy(keep, key, value, xs) && AssocBy(keep, key, value, xs)[k] == value(xs[i])
    {
      AssocByLast(keep, key, value, xs, k, i);
    }
  }

  lemma {:induction false} AssocByKeys<T, K, V>(keep: T -> bool, key: T -> K, value: T -> V, xs: seq<T>, k: K)
    ensures k in AssocBy(keep, key, value, xs) <==> exists i :: 0 <= i < |xs| && keep(xs[i]) && key(xs[i]) == k
    decreases |xs|
  {
    if xs != [] {
      var p := xs[..|xs| - 1];
      AssocByKeys(keep, key, value, p, k);
      if exists i :: 0 <= i < |xs| && keep(xs[i]) && key(xs[i]) == k {
        var i :| 0 <= i < |xs| && keep(xs[i]) && key(xs[i]) == k;
        if i < |p| {
          assert p[i] == xs[i];
        }
      }
      if exists i :: 0 <= i < |p| && keep(p[i]) && key(p[i]) == k {
        var i :| 0 <= i < |p| && keep(p[i]) && key(p[i]) == k;
        assert p[i] == xs[i];
      }
    }
  }

  lemma {:induction false} AssocByValue<T, K, V>(keep: T -> bool, key: T -> K, value: T -> V, xs: seq<T>, k: K)
    ensures k in AssocBy(keep, key, value, xs) ==>
              exists i :: 0 <= i < |xs| && keep(xs[i]) && key(xs[i]) == k && AssocBy(keep, key, value, xs)[k] == value(xs[i])
    decreases |xs|
  {
    if xs != [] {
      var p := xs[..|xs| - 1];
      var x := xs[|xs| - 1];
      AssocByValue(keep, key, value, p, k);
      if k in AssocBy(keep, key, value, xs) && !(keep(x) && key(x) == k) {
        var i :| 0 <= i < |p| && keep(p[i]) && key(p[i]) == k && AssocBy(keep, key, value, p)[k] == value(p[i]);
        assert p[i] == xs[i];
      }
    }
  }

  lemma {:induction false} AssocByLast<T, K, V>(keep: T -> bool, key: T -> K, value: T -> V, xs: seq<T>, k: K, i: nat)
    requires i < |xs| && keep(xs[i]) && key(xs[i]) == k
    requires forall j :: i < j < |xs| && keep(xs[j]) ==> key(xs[j]) != k
    ensures k in AssocBy(keep, key, value, xs) && AssocBy(keep, key, value, xs)[k] == value(xs[i])
    decreases |xs|
  {
    var p := xs[..|xs| - 1];
    if i < |p| {
      assert p[i] == xs[i];
      forall j | i < j < |p| && keep(p[j]) ensures key(p[j]) != k {
        assert p[j] == xs[j];
      }
      AssocByLast(keep, key, value, p, k, i);
    }
  }
}
