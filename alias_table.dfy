/**
 * The alias table of both dataset builds: every alias of every record claims its canonical
 * key for the record's id; a key claimed by two different ids becomes ambiguous; manual
 * aliases fill keys nobody claimed; ambiguous keys are deleted at the end.
 *
 * Ids are strings, and a missing id is the empty string: the JavaScript tests on table
 * entries are truthiness tests, under which a stored empty id counts as "no entry".
 */
module AliasTable {
  import opened Wrappers
  import opened Canon
  import opened Sorting
  import Seqs

  /** One alias of one record: its canonical key and the record's id. */
  datatype Claim = Claim(key: string, id: string)

  /** One manual alias: the key and the id it should point to (empty when unresolved). */
  datatype Manual = Manual(alias: string, id: string)

  /**
   * `aliasToCanonical` and `ambiguousAliases` while the build runs. The ambiguous keys are
   * kept in insertion order, without repetition, as a JavaScript `Set` keeps them.
   */
  datatype AliasState = AliasState(table: map<string, string>, ambiguous: seq<string>)

  const Empty := AliasState(map[], [])

  /** The truthiness test `aliasToCanonical[k]` (a missing key and an empty id are both falsy). */
  predicate HasEntry(table: map<string, string>, k: string) {
    k in table && table[k] != []
  }

  /** `ambiguousAliases.add(k)` */
  function AddAmbiguous(amb: seq<string>, k: string): (r: seq<string>)
    ensures forall x :: x in r <==> x in amb || x == k
  {
    if k in amb then amb else amb + [k]
  }

  /**
   * One pass of the alias loop: an empty key is skipped; a key whose entry is truthy and names
   * another id becomes ambiguous (and keeps its entry); otherwise the key is set to the id.
   */
  function ClaimStep(st: AliasState, c: Claim): AliasState {
    if c.key == [] then st
    else if HasEntry(st.table, c.key) && st.table[c.key] != c.id then
      AliasState(st.table, AddAmbiguous(st.ambiguous, c.key))
    else AliasState(st.table[c.key := c.id], st.ambiguous)
  }

  /** The alias loop run over all claims, in order. */
  function ClaimAll(st: AliasState, cs: seq<Claim>): AliasState
    decreases |cs|
  {
    if cs == [] then st else ClaimStep(ClaimAll(st, cs[..|cs| - 1]), cs[|cs| - 1])
  }

  /** Running the loop over two batches is running it over their concatenation. */
  lemma {:induction false} ClaimAllConcat(st: AliasState, a: seq<Claim>, b: seq<Claim>)
    ensures ClaimAll(st, a + b) == ClaimAll(ClaimAll(st, a), b)
    decreases |b|
  {
    if b == [] {
      assert a + b == a;
    } else {
      assert (a + b)[..|a + b| - 1] == a + b[..|b| - 1];
      assert (a + b)[|a + b| - 1] == b[|b| - 1];
      ClaimAllConcat(st, a, b[..|b| - 1]);
    }
  }

  /** The ids that claim key `k`. */
  function Ids(cs: seq<Claim>, k: string): set<string> {
    set i | 0 <= i < |cs| && cs[i].key == k :: cs[i].id
  }

  predicate NonEmptyIds(cs: seq<Claim>) {
    forall i :: 0 <= i < |cs| ==> cs[i].id != []
  }

  lemma IdsSnoc(cs: seq<Claim>, c: Claim, k: string)
    ensures Ids(cs + [c], k) == Ids(cs, k) + (if c.key == k then {c.id} else {})
  {
    var s := cs + [c];
    forall x | x in Ids(s, k) ensures x in Ids(cs, k) + (if c.key == k then {c.id} else {}) {
      var i :| 0 <= i < |s| && s[i].key == k && s[i].id == x;
      if i < |cs| {
        assert cs[i] == s[i];
      }
    }
    forall x | x in Ids(cs, k) ensures x in Ids(s, k) {
      var i :| 0 <= i < |cs| && cs[i].key == k && cs[i].id == x;
      assert s[i] == cs[i];
    }
    if c.key == k {
      assert s[|cs|] == c;
    }
  }

  /**
   * What the loop state records about the claims seen so far: a key has an entry exactly
   * when it is non-empty and claimed; the entry is one of its claimers; and it is ambiguous
   * exactly when some claimer differs from the entry.
   */
  ghost predicate Tracks(st: AliasState, cs: seq<Claim>) {
    (forall k :: k in st.table <==> k != [] && Ids(cs, k) != {})
    && (forall k :: k in st.table ==> st.table[k] in Ids(cs, k))
    && (forall k :: k in st.ambiguous <==> k in st.table && Ids(cs, k) != {st.table[k]})
  }

  lemma ClaimStepTracks(st: AliasState, cs: seq<Claim>, c: Claim)
    requires Tracks(st, cs) && NonEmptyIds(cs) && c.id != []
    ensures Tracks(ClaimStep(st, c), cs + [c])
  {
    var st' := ClaimStep(st, c);
    forall k
      ensures k in st'.table <==> k != [] && Ids(cs + [c], k) != {}
      ensures k in st'.table ==> st'.table[k] in Ids(cs + [c], k)
      ensures k in st'.ambiguous <==> k in st'.table && Ids(cs + [c], k) != {st'.table[k]}
    {
      IdsSnoc(cs, c, k);
      if k in st.table {
        var i :| 0 <= i < |cs| && cs[i].key == k && cs[i].id == st.table[k];
      }
    }
  }

  /** The characterization holds after the whole loop, provided every id is present. */
  lemma {:induction false} ClaimAllTracks(cs: seq<Claim>)
    requires NonEmptyIds(cs)
    ensures Tracks(ClaimAll(Empty, cs), cs)
    decreases |cs|
  {
    if cs != [] {
      var p := cs[..|cs| - 1];
      ClaimAllTracks(p);
      ClaimStepTracks(ClaimAll(Empty, p), p, cs[|cs| - 1]);
      assert p + [cs[|cs| - 1]] == cs;
    }
  }

  predicate Distinct(s: seq<string>) {
    forall i, j :: 0 <= i < j < |s| ==> s[i] != s[j]
  }

  lemma AddAmbiguousDistinct(amb: seq<string>, k: string)
    requires Distinct(amb)
    ensures Distinct(AddAmbiguous(amb, k))
  {
    if k !in amb {
      var r := amb + [k];
      forall i, j | 0 <= i < j < |r| ensures r[i] != r[j] {
        if j == |amb| {
          assert r[i] == amb[i];
        }
      }
    }
  }

  /** The ambiguous list never repeats a key. */
  lemma {:induction false} ClaimAllDistinct(st: AliasState, cs: seq<Claim>)
    requires Distinct(st.ambiguous)
    ensures Distinct(ClaimAll(st, cs).ambiguous)
    decreases |cs|
  {
    if cs != [] {
      ClaimAllDistinct(st, cs[..|cs| - 1]);
      AddAmbiguousDistinct(ClaimAll(st, cs[..|cs| - 1]).ambiguous, cs[|cs| - 1].key);
    }
  }

  /** The first manual entry for `k` whose id is present. */
  function ManualFirst(ms: seq<Manual>, k: string): (r: Option<string>)
    ensures r.Some? ==> r.value != [] && exists i :: 0 <= i < |ms| && ms[i] == Manual(k, r.value)
    ensures r.None? <==> forall i :: 0 <= i < |ms| && ms[i].alias == k ==> ms[i].id == []
    decreases |ms|
  {
    if ms == [] then None
    else
      var r := ManualFirst(ms[..|ms| - 1], k);
      assert forall i :: 0 <= i < |ms| - 1 ==> ms[..|ms| - 1][i] == ms[i];
      if r.Some? then r
      else if ms[|ms| - 1].alias == k && ms[|ms| - 1].id != [] then Some(ms[|ms| - 1].id)
      else None
  }

  /**
   * One pass of the manual loop: an entry is applied when its id is present, its key is not
   * ambiguous and the table has no truthy entry for it.
   */
  function ManualStep(st: AliasState, m: Manual): AliasState {
    if m.id != [] && m.alias !in st.ambiguous && !HasEntry(st.table, m.alias) then
      AliasState(st.table[m.alias := m.id], st.ambiguous)
    else st
  }

  function ManualAll(st: AliasState, ms: seq<Manual>): AliasState
    decreases |ms|
  {
    if ms == [] then st else ManualStep(ManualAll(st, ms[..|ms| - 1]), ms[|ms| - 1])
  }

  /**
   * Manual aliases never touch a truthy entry or the ambiguous list; a key without an entry
   * gets the first manual id offered for it.
   */
  lemma {:induction false} ManualAllSpec(st: AliasState, ms: seq<Manual>)
    requires forall k :: k in st.table ==> st.table[k] != []
    requires forall k :: k in st.ambiguous ==> k in st.table
    ensures ManualAll(st, ms).ambiguous == st.ambiguous
    ensures forall k :: k in ManualAll(st, ms).table <==> k in st.table || ManualFirst(ms, k).Some?
    ensures forall k :: k in st.table ==> ManualAll(st, ms).table[k] == st.table[k]
    ensures forall k :: k !in st.table && ManualFirst(ms, k).Some? ==>
              ManualAll(st, ms).table[k] == ManualFirst(ms, k).value
    decreases |ms|
  {
    if ms != [] {
      ManualAllSpec(st, ms[..|ms| - 1]);
    }
  }

  /** The deletion loop over the ambiguous keys. */
  function Final(st: AliasState): (r: map<string, string>)
    ensures forall k :: k in r <==> k in st.table && k !in st.ambiguous
    ensures forall k :: k in r ==> r[k] == st.table[k]
  {
    map k | k in st.table && k !in st.ambiguous :: st.table[k]
  }

  /** The table the build writes: claims, then manual aliases, then deletion of ambiguous keys. */
  function Build(cs: seq<Claim>, ms: seq<Manual>): AliasState {
    ManualAll(ClaimAll(Empty, cs), ms)
  }

  lemma SingletonSet(s: set<string>, x: string)
    requires x in s
    ensures |s| == 1 <==> s == {x}
  {
    if |s| == 1 {
      assert |s - {x}| == 0;
      assert s - {x} == {};
    }
  }

  /**
   * The built table: a non-empty key claimed by exactly one id maps to that id; a key claimed
   * by several ids is absent; a key nobody claimed takes the first manual id offered for it.
   * Every id must be present for this to hold.
   */
  lemma BuildCharacterization(cs: seq<Claim>, ms: seq<Manual>)
    requires NonEmptyIds(cs)
    ensures var t := Final(Build(cs, ms));
            forall k :: k in t <==>
              (k != [] && |Ids(cs, k)| == 1) || ((k == [] || Ids(cs, k) == {}) && ManualFirst(ms, k).Some?)
    ensures var t := Final(Build(cs, ms));
            forall k :: k in t && k != [] && Ids(cs, k) != {} ==> Ids(cs, k) == {t[k]}
    ensures var t := Final(Build(cs, ms));
            forall k :: k in t && (k == [] || Ids(cs, k) == {}) ==> Some(t[k]) == ManualFirst(ms, k)
    ensures forall k :: k in Build(cs, ms).ambiguous <==> k != [] && |Ids(cs, k)| > 1
  {
    var st := ClaimAll(Empty, cs);
    ClaimAllTracks(cs);
    forall k | k in st.table ensures st.table[k] != [] {
      var i :| 0 <= i < |cs| && cs[i].key == k && cs[i].id == st.table[k];
    }
    ManualAllSpec(st, ms);
    forall k | k in st.table ensures |Ids(cs, k)| == 1 <==> Ids(cs, k) == {st.table[k]} {
      SingletonSet(Ids(cs, k), st.table[k]);
    }
    forall k | k in st.table ensures |Ids(cs, k)| > 1 <==> Ids(cs, k) != {st.table[k]} {
      SingletonSet(Ids(cs, k), st.table[k]);
    }
  }

  /** The built table and ambiguous keys do not depend on the order of the claims. */
  lemma BuildOrderIndependent(a: seq<Claim>, b: seq<Claim>, ms: seq<Manual>)
    requires NonEmptyIds(a) && NonEmptyIds(b)
    requires forall c :: c in a <==> c in b
    ensures Final(Build(a, ms)) == Final(Build(b, ms))
    ensures forall k :: k in Build(a, ms).ambiguous <==> k in Build(b, ms).ambiguous
  {
    forall k ensures Ids(a, k) == Ids(b, k) {
      SameClaimsSameIds(a, b, k);
    }
    BuildCharacterization(a, ms);
    BuildCharacterization(b, ms);
    TablesAgree(Final(Build(a, ms)), Final(Build(b, ms)), a, b, ms);
  }

  /** The table the characterization of `BuildCharacterization` describes. */
  ghost predicate Characterized(t: map<string, string>, cs: seq<Claim>, ms: seq<Manual>) {
    (forall k :: k in t <==> (k != [] && |Ids(cs, k)| == 1) || ((k == [] || Ids(cs, k) == {}) && ManualFirst(ms, k).Some?))
    && (forall k :: k in t && k != [] && Ids(cs, k) != {} ==> Ids(cs, k) == {t[k]})
    && (forall k :: k in t && (k == [] || Ids(cs, k) == {}) ==> Some(t[k]) == ManualFirst(ms, k))
  }

  /** Claims with the same claimers per key describe one table. */
  lemma TablesAgree(ta: map<string, string>, tb: map<string, string>, a: seq<Claim>, b: seq<Claim>, ms: seq<Manual>)
    requires forall k :: Ids(a, k) == Ids(b, k)
    requires Characterized(ta, a, ms) && Characterized(tb, b, ms)
    ensures ta == tb
  {
    assert forall k :: k in ta <==> k in tb;
    forall k | k in ta ensures ta[k] == tb[k] {
      if k != [] && Ids(a, k) != {} {
        assert {ta[k]} == {tb[k]};
      } else {
        assert Some(ta[k]) == Some(tb[k]);
      }
    }
  }

  lemma SameClaimsSameIds(a: seq<Claim>, b: seq<Claim>, k: string)
    requires forall c :: c in a <==> c in b
    ensures Ids(a, k) == Ids(b, k)
  {
    forall x | x in Ids(a, k) ensures x in Ids(b, k) {
      var i :| 0 <= i < |a| && a[i].key == k && a[i].id == x;
      assert a[i] in b;
      var j :| 0 <= j < |b| && b[j] == a[i];
    }
    forall x | x in Ids(b, k) ensures x in Ids(a, k) {
      var i :| 0 <= i < |b| && b[i].key == k && b[i].id == x;
      assert b[i] in a;
      var j :| 0 <= j < |a| && a[j] == b[i];
    }
  }

  /** The aliases of a record in `Set` insertion order: later repetitions are dropped. */
  function Dedup(s: seq<string>): (r: seq<string>)
    ensures Distinct(r)
    ensures forall x :: x in r <==> x in s
    decreases |s|
  {
    if s == [] then []
    else
      var p := Dedup(s[..|s| - 1]);
      assert forall x :: x in s[..|s| - 1] ==> x in s;
      assert forall x :: x in s ==> x in s[..|s| - 1] || x == s[|s| - 1];
      AddAmbiguousDistinct(p, s[|s| - 1]);
      AddAmbiguous(p, s[|s| - 1])
  }

  /** `for (const alias of aliases) { const c = canonicalize(alias); ... }`: the claims of one record. */
  function ClaimsOf(aliases: seq<string>, id: string): (cs: seq<Claim>)
    ensures |cs| == |aliases|
    ensures forall i :: 0 <= i < |cs| ==> cs[i] == Claim(Canonicalize(aliases[i]), id)
  {
    seq(|aliases|, i requires 0 <= i < |aliases| => Claim(Canonicalize(aliases[i]), id))
  }

  /** The alias loop of one record. */
  method AddClaims(st: AliasState, aliases: seq<string>, id: string) returns (r: AliasState)
    ensures r == ClaimAll(st, ClaimsOf(aliases, id))
  {
    r := st;
    var j := 0;
    while j < |aliases|
      invariant 0 <= j <= |aliases|
      invariant r == ClaimAll(st, ClaimsOf(aliases[..j], id))
    {
      var cs := ClaimsOf(aliases[..j + 1], id);
      assert cs[..|cs| - 1] == ClaimsOf(aliases[..j], id);
      r := ClaimStep(r, Claim(Canonicalize(aliases[j]), id));
      j := j + 1;
    }
    assert aliases[..j] == aliases;
  }

  /** The manual-alias loop. */
  method ApplyManual(st: AliasState, ms: seq<Manual>) returns (r: AliasState)
    ensures r == ManualAll(st, ms)
  {
    r := st;
    var j := 0;
    while j < |ms|
      invariant 0 <= j <= |ms|
      invariant r == ManualAll(st, ms[..j])
    {
      assert ms[..j + 1][..j] == ms[..j];
      r := ManualStep(r, ms[j]);
      j := j + 1;
    }
    assert ms[..j] == ms;
  }

  /** `for (const a of ambiguousAliases) delete aliasToCanonical[a];` */
  method DeleteAmbiguous(st: AliasState) returns (table: map<string, string>)
    ensures table == Final(st)
  {
    table := st.table;
    var j := 0;
    while j < |st.ambiguous|
      invariant 0 <= j <= |st.ambiguous|
      invariant table == map k | k in st.table && k !in st.ambiguous[..j] :: st.table[k]
    {
      assert forall k :: k in st.ambiguous[..j + 1] <==> k in st.ambiguous[..j] || k == st.ambiguous[j];
      table := table - {st.ambiguous[j]};
      j := j + 1;
    }
    assert st.ambiguous[..j] == st.ambiguous;
  }

  /** The manual loop never changes the ambiguous keys. */
  lemma {:induction false} ManualAllKeepsAmbiguous(st: AliasState, ms: seq<Manual>)
    ensures ManualAll(st, ms).ambiguous == st.ambiguous
    decreases |ms|
  {
    if ms != [] {
      ManualAllKeepsAmbiguous(st, ms[..|ms| - 1]);
    }
  }

  /** No ambiguous key survives the build, whatever the claims and manual aliases. */
  lemma NoAmbiguousSurvives(cs: seq<Claim>, ms: seq<Manual>)
    ensures forall k :: k in Build(cs, ms).ambiguous ==> k !in Final(Build(cs, ms))
    ensures Build(cs, ms).ambiguous == ClaimAll(Empty, cs).ambiguous
  {
    ManualAllKeepsAmbiguous(ClaimAll(Empty, cs), ms);
  }

  /** A list without repetitions holds each of its members once. */
  /** Two lists without repetitions and with the same members are permutations of each other. */
  lemma DistinctSameMembers(a: seq<string>, b: seq<string>)
    requires Distinct(a) && Distinct(b) && forall x :: x in a <==> x in b
    ensures multiset(a) == multiset(b)
  {
    forall x ensures multiset(a)[x] == multiset(b)[x] {
      Seqs.DistinctCount(a, x);
      Seqs.DistinctCount(b, x);
    }
  }

  /** Sorting a list without repetitions keeps its members and repeats nothing. */
  lemma SortDistinct(s: seq<string>)
    requires Distinct(s)
    ensures Distinct(Sort(s))
    ensures forall k :: k in Sort(s) <==> k in s
  {
    var l := Sort(s);
    forall k ensures k in l <==> k in s {
      assert k in l <==> k in multiset(l);
    }
    forall i, j | 0 <= i < j < |l| ensures l[i] != l[j] {
      Seqs.DistinctCount(s, l[i]);
      RepeatCounts(l, i, j);
    }
  }

  /** An element found at two positions occurs at least twice. */
  lemma RepeatCounts(l: seq<string>, i: nat, j: nat)
    requires i < j < |l|
    ensures l[i] == l[j] ==> multiset(l)[l[i]] >= 2
  {
    assert l == l[..j] + [l[j]] + l[j + 1..];
    assert l[..j][i] == l[i];
  }

  /**
   * `Array.from(ambiguousAliases).sort()`: sorted, without repetitions, holding exactly the
   * ambiguous keys, none of which is left in the table.
   */
  lemma AmbiguousList(cs: seq<Claim>, ms: seq<Manual>)
    ensures var l := Sort(Build(cs, ms).ambiguous);
            && Sorted(l) && Distinct(l)
            && (forall k :: k in l <==> k in ClaimAll(Empty, cs).ambiguous)
            && (forall k :: k in l ==> k !in Final(Build(cs, ms)))
  {
    NoAmbiguousSurvives(cs, ms);
    ClaimAllDistinct(Empty, cs);
    SortDistinct(Build(cs, ms).ambiguous);
  }

  /** A non-empty key with a single claimer resolves to it and is not ambiguous. */
  lemma SoleClaimer(cs: seq<Claim>, ms: seq<Manual>, k: string, id: string)
    requires NonEmptyIds(cs) && k != [] && Ids(cs, k) == {id}
    ensures k in Final(Build(cs, ms)) && Final(Build(cs, ms))[k] == id
    ensures k !in Sort(Build(cs, ms).ambiguous)
  {
    BuildCharacterization(cs, ms);
    AmbiguousList(cs, ms);
  }

  /** A key with two different claimers is absent from the table and on the ambiguous list. */
  lemma ContestedKey(cs: seq<Claim>, ms: seq<Manual>, k: string, id1: string, id2: string)
    requires NonEmptyIds(cs) && k != [] && id1 in Ids(cs, k) && id2 in Ids(cs, k) && id1 != id2
    ensures k !in Final(Build(cs, ms))
    ensures k in Sort(Build(cs, ms).ambiguous)
  {
    assert {id1, id2} <= Ids(cs, k);
    assert |{id1, id2}| == 2;
    BuildCharacterization(cs, ms);
    AmbiguousList(cs, ms);
    NoAmbiguousSurvives(cs, ms);
  }

  /** A key nobody claims resolves exactly by the first usable manual entry for it. */
  lemma UnclaimedKey(cs: seq<Claim>, ms: seq<Manual>, k: string)
    requires NonEmptyIds(cs) && Ids(cs, k) == {}
    ensures k in Final(Build(cs, ms)) <==> ManualFirst(ms, k).Some?
    ensures k in Final(Build(cs, ms)) ==> ManualFirst(ms, k) == Some(Final(Build(cs, ms))[k])
  {
    BuildCharacterization(cs, ms);
  }
}
