/**
 * The letter index of both dataset builds: for every record with a first letter, its id is
 * pushed onto the list of that letter (the list is created on first use, which fixes the
 * order of `Object.keys`); at the end every list is sorted.
 */
module LetterIndex {
  import opened Wrappers
  import opened Sorting
  import Seqs

  /** A record as the index sees it: its first letter, if any, and its id. */
  datatype Entry = Entry(first: Option<char>, id: string)

  /** `letterIndex`: the letters in key-insertion order and the list of each letter. */
  datatype Index = Index(order: seq<char>, buckets: map<char, seq<string>>)

  const Empty := Index([], map[])

  /** The letters are listed once each, and exactly the letters with a list are listed. */
  predicate WellFormed(ix: Index) {
    (forall i, j :: 0 <= i < j < |ix.order| ==> ix.order[i] != ix.order[j])
    && (forall c :: c in ix.order <==> c in ix.buckets)
  }

  /** `if (first) { if (!letterIndex[first]) letterIndex[first] = []; letterIndex[first].push(id); }` */
  function Push(ix: Index, e: Entry): Index {
    match e.first
    case None => ix
    case Some(c) =>
      if c in ix.buckets then Index(ix.order, ix.buckets[c := ix.buckets[c] + [e.id]])
      else Index(ix.order + [c], ix.buckets[c := [e.id]])
  }

  function PushAll(ix: Index, es: seq<Entry>): Index
    decreases |es|
  {
    if es == [] then ix else Push(PushAll(ix, es[..|es| - 1]), es[|es| - 1])
  }

  /** Pushing two batches is pushing their concatenation. */
  lemma {:induction false} PushAllConcat(ix: Index, a: seq<Entry>, b: seq<Entry>)
    ensures PushAll(ix, a + b) == PushAll(PushAll(ix, a), b)
    decreases |b|
  {
    if b == [] {
      assert a + b == a;
    } else {
      assert (a + b)[..|a + b| - 1] == a + b[..|b| - 1];
      assert (a + b)[|a + b| - 1] == b[|b| - 1];
      PushAllConcat(ix, a, b[..|b| - 1]);
    }
  }

  /** The ids of the entries whose first letter is `c`, in input order. */
  function Bucket(es: seq<Entry>, c: char): seq<string>
    decreases |es|
  {
    if es == [] then []
    else Bucket(es[..|es| - 1], c) + (if es[|es| - 1].first == Some(c) then [es[|es| - 1].id] else [])
  }

  /** The final sort of every list. */
  function SortBuckets(ix: Index): (r: Index)
    ensures r.order == ix.order && r.buckets.Keys == ix.buckets.Keys
    ensures forall c :: c in r.buckets ==> Sorted(r.buckets[c])
                                            && multiset(r.buckets[c]) == multiset(ix.buckets[c])
  {
    Index(ix.order, map c | c in ix.buckets :: Sort(ix.buckets[c]))
  }

  /** The index the build writes. */
  function Build(es: seq<Entry>): Index {
    SortBuckets(PushAll(Empty, es))
  }

  /**
   * After the push loop the index is well formed, a letter has a list exactly when some
   * entry has it as first letter, and that list holds those entries' ids in input order.
   */
  lemma {:induction false} PushAllSpec(es: seq<Entry>)
    ensures WellFormed(PushAll(Empty, es))
    ensures forall c :: c in PushAll(Empty, es).buckets <==> Bucket(es, c) != []
    ensures forall c :: c in PushAll(Empty, es).buckets ==> PushAll(Empty, es).buckets[c] == Bucket(es, c)
    decreases |es|
  {
    if es != [] {
      var p := es[..|es| - 1];
      PushAllSpec(p);
      var ix := PushAll(Empty, p);
      var e := es[|es| - 1];
      if e.first.Some? && e.first.value !in ix.buckets {
        var c := e.first.value;
        forall i, j | 0 <= i < j < |ix.order| + 1 ensures (ix.order + [c])[i] != (ix.order + [c])[j] {
          if j == |ix.order| {
            assert (ix.order + [c])[i] == ix.order[i];
          }
        }
      }
    }
  }

  /** How often an id occurs in the list of `c` is how often the entry (c, id) occurs in the input. */
  lemma {:induction false} BucketCounts(es: seq<Entry>, c: char, id: string)
    ensures multiset(Bucket(es, c))[id] == multiset(es)[Entry(Some(c), id)]
    decreases |es|
  {
    if es != [] {
      var p := es[..|es| - 1];
      BucketCounts(p, c, id);
      assert es == p + [es[|es| - 1]];
    }
  }

  /**
   * The built index: well formed; a letter is present exactly when some entry starts with it;
   * its list is sorted and holds, as a multiset, the ids of the entries starting with it.
   */
  lemma BuildSpec(es: seq<Entry>)
    ensures WellFormed(Build(es))
    ensures forall c :: c in Build(es).buckets <==> exists e :: e in es && e.first == Some(c)
    ensures forall c, id :: c in Build(es).buckets ==>
              Sorted(Build(es).buckets[c])
              && multiset(Build(es).buckets[c])[id] == multiset(es)[Entry(Some(c), id)]
  {
    PushAllSpec(es);
    forall c ensures Bucket(es, c) != [] <==> exists e :: e in es && e.first == Some(c) {
      BucketNonEmpty(es, c);
    }
    forall c, id | c in Build(es).buckets
      ensures multiset(Build(es).buckets[c])[id] == multiset(es)[Entry(Some(c), id)]
    {
      BucketCounts(es, c, id);
    }
  }

  lemma {:induction false} BucketNonEmpty(es: seq<Entry>, c: char)
    ensures Bucket(es, c) != [] <==> exists e :: e in es && e.first == Some(c)
    decreases |es|
  {
    if es != [] {
      var p := es[..|es| - 1];
      BucketNonEmpty(p, c);
      assert es == p + [es[|es| - 1]];
      if exists e :: e in es && e.first == Some(c) {
        var e :| e in es && e.first == Some(c);
        if e != es[|es| - 1] {
          assert e in p;
        }
      }
    }
  }

  /** Input records in another order give each letter the same ids, in another order. */
  lemma BucketPermutation(a: seq<Entry>, b: seq<Entry>, c: char)
    requires multiset(a) == multiset(b)
    ensures multiset(Bucket(a, c)) == multiset(Bucket(b, c))
  {
    forall id ensures multiset(Bucket(a, c))[id] == multiset(Bucket(b, c))[id] {
      BucketCounts(a, c, id);
      BucketCounts(b, c, id);
    }
  }

  /** The sorted lists do not depend on the order of the input records. */
  lemma BuildBucketsOrderIndependent(a: seq<Entry>, b: seq<Entry>)
    requires multiset(a) == multiset(b)
    ensures Build(a).buckets == Build(b).buckets
  {
    PushAllSpec(a);
    PushAllSpec(b);
    forall c ensures Bucket(a, c) != [] <==> Bucket(b, c) != [] {
      BucketPermutation(a, b, c);
      assert Bucket(a, c) == [] <==> multiset(Bucket(a, c)) == multiset{};
      assert Bucket(b, c) == [] <==> multiset(Bucket(b, c)) == multiset{};
    }
    forall c | c in Build(a).buckets ensures Build(a).buckets[c] == Build(b).buckets[c] {
      BucketPermutation(a, b, c);
      SortOrderIndependent(Bucket(a, c), Bucket(b, c));
    }
  }

  /** The lists after the first `n` letters of the key order have been sorted. */
  function SortedUpTo(ix: Index, n: nat): map<char, seq<string>>
    requires n <= |ix.order|
  {
    map c | c in ix.buckets :: if c in ix.order[..n] then Sort(ix.buckets[c]) else ix.buckets[c]
  }

  lemma SortedUpToStep(ix: Index, n: nat)
    requires WellFormed(ix) && n < |ix.order|
    ensures SortedUpTo(ix, n + 1) == SortedUpTo(ix, n)[ix.order[n] := Sort(ix.buckets[ix.order[n]])]
  {
    var c := ix.order[n];
    assert c !in ix.order[..n] by {
      forall i | 0 <= i < n ensures ix.order[..n][i] != c {
        assert ix.order[..n][i] == ix.order[i];
      }
    }
    assert forall d :: d in ix.order[..n + 1] <==> d in ix.order[..n] || d == c;
  }

  lemma SortedUpToEnds(ix: Index)
    requires WellFormed(ix)
    ensures SortedUpTo(ix, 0) == ix.buckets
    ensures SortedUpTo(ix, |ix.order|) == SortBuckets(ix).buckets
  {
    assert ix.order[..|ix.order|] == ix.order;
  }

  /** `for (const k of Object.keys(letterIndex)) letterIndex[k].sort();` */
  method SortEach(ix: Index) returns (r: Index)
    requires WellFormed(ix)
    ensures r == SortBuckets(ix)
  {
    SortedUpToEnds(ix);
    var buckets := ix.buckets;
    var b := 0;
    while b < |ix.order|
      invariant 0 <= b <= |ix.order|
      invariant buckets == SortedUpTo(ix, b)
    {
      SortedUpToStep(ix, b);
      buckets := buckets[ix.order[b] := Sort(buckets[ix.order[b]])];
      b := b + 1;
    }
    r := Index(ix.order, buckets);
  }

  /** `Object.keys(letterIndex).length`: a well-formed index lists each of its letters once. */
  lemma OrderCountsKeys(ix: Index)
    requires WellFormed(ix)
    ensures |ix.order| == |ix.buckets.Keys|
  {
    Seqs.DistinctCard(ix.order);
    assert (set c | c in ix.order) == ix.buckets.Keys;
  }
}
