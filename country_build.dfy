/**
 * `buildCountries`: one pass over the REST Countries records that emits a country record per
 * input record, feeds every alias into the alias table and every first letter into the
 * letter index; then the manual aliases, the deletion of ambiguous keys and the sorts.
 */
module CountryBuild {
  import opened Wrappers
  import opened Canon
  import opened Sorting
  import Seqs
  import AT = AliasTable
  import LI = LetterIndex
  import Manifest

  /**
   * One record as fetched. A missing string field is the empty string; `altSpellings` holds the
   * non-string entries removed (a missing or non-array field is the empty list).
   */
  datatype RawCountry = RawCountry(
    cca3: string, cca2: string, nameCommon: string, nameOfficial: string,
    altSpellings: seq<string>, region: string, subregion: string,
    independent: Option<bool>, unMember: Option<bool>)

  /** One entry of `countries.json`. */
  datatype Country = Country(
    id: string, cca2: string, nameCommon: string, nameOfficial: string, displayName: string,
    region: Option<string>, subregion: Option<string>,
    independent: Option<bool>, unMember: Option<bool>,
    firstLetter: Option<char>, lastLetter: Option<char>)

  /** The output of the build: the four artifacts the script writes. */
  datatype CountryDataset = CountryDataset(
    countries: seq<Country>, aliasToCanonical: map<string, string>,
    letterIndex: LI.Index, ambiguousAliases: seq<string>)

  /** `x || fallback` on strings. */
  function Or(x: string, fallback: string): string {
    if x != [] then x else fallback
  }

  /** `x || null` on strings. */
  function OrNull(x: string): Option<string> {
    if x != [] then Some(x) else None
  }

  /** The record pushed for one raw record; its letters come from the key of its display name. */
  function ToCountry(r: RawCountry): Country {
    var key := Canonicalize(NameCommon(r));
    Country(r.cca3, r.cca2, NameCommon(r), NameOfficial(r), NameCommon(r),
            OrNull(r.region), OrNull(r.subregion), r.independent, r.unMember,
            FirstLetter(key), LastLetter(key))
  }

  /** `r?.name?.common || cca3`, which is also the display name. */
  function NameCommon(r: RawCountry): string {
    Or(r.nameCommon, r.cca3)
  }

  /** `r?.name?.official || nameCommon` */
  function NameOfficial(r: RawCountry): string {
    Or(r.nameOfficial, NameCommon(r))
  }

  /**
   * The fallbacks of the emitted record (common name, else cca3; official name, else common
   * name), and its letters: absent exactly when the display name has an empty key, and
   * otherwise the first and last character of that key.
   */
  lemma ToCountrySpec(r: RawCountry)
    ensures var c := ToCountry(r);
            && c.id == r.cca3 && c.displayName == c.nameCommon
            && c.nameCommon == (if r.nameCommon != [] then r.nameCommon else r.cca3)
            && c.nameOfficial == (if r.nameOfficial != [] then r.nameOfficial else c.nameCommon)
    ensures var c := ToCountry(r);
            var key := Canonicalize(c.displayName);
            && (c.firstLetter.None? <==> key == [])
            && (c.lastLetter.None? <==> key == [])
            && (key != [] ==> c.firstLetter == Some(key[0]) && c.lastLetter == Some(key[|key| - 1]))
  {
    KeyLetters(Canonicalize(ToCountry(r).displayName));
  }

  /** Keeps the non-empty strings (`if (a && typeof a === 'string')`). */
  function NonEmpty(s: seq<string>): (r: seq<string>)
    ensures forall x :: x in r <==> x in s && x != []
    decreases |s|
  {
    if s == [] then []
    else NonEmpty(s[..|s| - 1]) + (if s[|s| - 1] != [] then [s[|s| - 1]] else [])
  }

  /** The alias set of a record: common name, official name, then the alternative spellings. */
  function Aliases(r: RawCountry): seq<string> {
    AT.Dedup([NameCommon(r), NameOfficial(r)] + NonEmpty(r.altSpellings))
  }

  /** The aliases of a record: its two names and its non-empty alternative spellings, once each. */
  lemma AliasesSpec(r: RawCountry)
    ensures AT.Distinct(Aliases(r))
    ensures forall x :: x in Aliases(r) <==> x == NameCommon(r) || x == NameOfficial(r)
                                             || (x in r.altSpellings && x != [])
  {
  }

  function RecordClaims(r: RawCountry): seq<AT.Claim> {
    AT.ClaimsOf(Aliases(r), r.cca3)
  }

  /** The claims of all records, in record order. */
  function Claims(raw: seq<RawCountry>): seq<AT.Claim> {
    Seqs.Flatten(RecordClaims, raw)
  }

  /** What the letter index sees of a record. */
  function IndexEntry(r: RawCountry): seq<LI.Entry> {
    [LI.Entry(ToCountry(r).firstLetter, r.cca3)]
  }

  function Entries(raw: seq<RawCountry>): seq<LI.Entry> {
    Seqs.Flatten(IndexEntry, raw)
  }

  function CountryOf(r: RawCountry): seq<Country> {
    [ToCountry(r)]
  }

  /** `countries.push(...)` for every record: the list before the final sort. */
  function Countries(raw: seq<RawCountry>): seq<Country> {
    Seqs.Flatten(CountryOf, raw)
  }

  /** `MANUAL_ALIAS_TO_CCA3`, in declaration order. */
  const ManualAliases: seq<AT.Manual> := [
    AT.Manual("ivorycoast", "CIV"), AT.Manual("czechrepublic", "CZE"), AT.Manual("burma", "MMR"),
    AT.Manual("netherlands", "NLD"), AT.Manual("capeverde", "CPV"), AT.Manual("russia", "RUS"),
    AT.Manual("vaticancity", "VAT"), AT.Manual("northkorea", "PRK"), AT.Manual("southkorea", "KOR"),
    AT.Manual("moldova", "MDA"), AT.Manual("macedonia", "MKD"), AT.Manual("bolivia", "BOL"),
    AT.Manual("laos", "LAO"), AT.Manual("iran", "IRN"), AT.Manual("syria", "SYR"),
    AT.Manual("taiwan", "TWN")
  ]

  /** The artifacts of the build, in terms of the alias table and the letter index. */
  function Dataset(raw: seq<RawCountry>): CountryDataset {
    var st := AT.Build(Claims(raw), ManualAliases);
    CountryDataset(Countries(raw), AT.Final(st), LI.Build(Entries(raw)), Sort(st.ambiguous))
  }

  /** Extending the processed prefix by one record extends each artifact by that record. */
  lemma PrefixStep(raw: seq<RawCountry>, i: nat)
    requires i < |raw|
    ensures Countries(raw[..i + 1]) == Countries(raw[..i]) + CountryOf(raw[i])
    ensures Claims(raw[..i + 1]) == Claims(raw[..i]) + RecordClaims(raw[i])
    ensures Entries(raw[..i + 1]) == Entries(raw[..i]) + IndexEntry(raw[i])
  {
    assert raw[..i + 1][..i] == raw[..i];
  }

  /** The body of `buildCountries` after the fetch, minus the locale sort of `countries`. */
  method BuildCountries(raw: seq<RawCountry>) returns (ds: CountryDataset)
    ensures ds == Dataset(raw)
  {
    var countries: seq<Country> := [];
    var st := AT.Empty;
    var ix := LI.Empty;
    var i := 0;
    while i < |raw|
      invariant 0 <= i <= |raw|
      invariant countries == Countries(raw[..i])
      invariant st == AT.ClaimAll(AT.Empty, Claims(raw[..i]))
      invariant ix == LI.PushAll(LI.Empty, Entries(raw[..i]))
    {
      var r := raw[i];
      var c := ToCountry(r);
      PrefixStep(raw, i);
      AT.ClaimAllConcat(AT.Empty, Claims(raw[..i]), RecordClaims(r));
      countries := countries + [c];
      st := AT.AddClaims(st, Aliases(r), r.cca3);
      ix := LI.Push(ix, LI.Entry(c.firstLetter, r.cca3));
      i := i + 1;
    }
    assert raw[..i] == raw;
    st := AT.ApplyManual(st, ManualAliases);
    var table := AT.DeleteAmbiguous(st);
    LI.PushAllSpec(Entries(raw));
    ix := LI.SortEach(ix);
    ds := CountryDataset(countries, table, ix, Sort(st.ambiguous));
  }

  /** Country `id` has an alias whose key is `k`. */
  ghost predicate ClaimedBy(raw: seq<RawCountry>, k: string, id: string) {
    exists i, a :: 0 <= i < |raw| && raw[i].cca3 == id && a in Aliases(raw[i]) && Canonicalize(a) == k
  }

  /** The claimers of a key, in terms of the countries: those with an alias of that key. */
  lemma IdsAreClaimers(raw: seq<RawCountry>, k: string, id: string)
    ensures id in AT.Ids(Claims(raw), k) <==> ClaimedBy(raw, k, id)
  {
    if id in AT.Ids(Claims(raw), k) {
      ClaimerIsCountry(raw, Claims(raw), k, id);
    }
    if ClaimedBy(raw, k, id) {
      CountryIsClaimer(raw, Claims(raw), k, id);
    }
  }

  lemma ClaimerIsCountry(raw: seq<RawCountry>, cs: seq<AT.Claim>, k: string, id: string)
    requires cs == Claims(raw) && id in AT.Ids(cs, k)
    ensures ClaimedBy(raw, k, id)
  {
    var c := AT.Claim(k, id);
    var n :| 0 <= n < |cs| && cs[n].key == k && cs[n].id == id;
    assert cs[n] == c;
    Seqs.FlattenMembers(RecordClaims, raw, c);
    var i :| 0 <= i < |raw| && c in RecordClaims(raw[i]);
    var j :| 0 <= j < |RecordClaims(raw[i])| && RecordClaims(raw[i])[j] == c;
    assert Aliases(raw[i])[j] in Aliases(raw[i]);
  }

  lemma CountryIsClaimer(raw: seq<RawCountry>, cs: seq<AT.Claim>, k: string, id: string)
    requires cs == Claims(raw) && ClaimedBy(raw, k, id)
    ensures id in AT.Ids(cs, k)
  {
    var c := AT.Claim(k, id);
    var i, a :| 0 <= i < |raw| && raw[i].cca3 == id && a in Aliases(raw[i]) && Canonicalize(a) == k;
    var j :| 0 <= j < |Aliases(raw[i])| && Aliases(raw[i])[j] == a;
    assert RecordClaims(raw[i])[j] == c;
    Seqs.FlattenMembers(RecordClaims, raw, c);
    var n :| 0 <= n < |cs| && cs[n] == c;
  }

  predicate HasIds(raw: seq<RawCountry>) {
    forall i :: 0 <= i < |raw| ==> raw[i].cca3 != []
  }

  lemma ClaimsHaveIds(raw: seq<RawCountry>)
    requires HasIds(raw)
    ensures AT.NonEmptyIds(Claims(raw))
  {
    var cs := Claims(raw);
    forall n | 0 <= n < |cs| ensures cs[n].id != [] {
      Seqs.FlattenMembers(RecordClaims, raw, cs[n]);
      var i :| 0 <= i < |raw| && cs[n] in RecordClaims(raw[i]);
      var j :| 0 <= j < |RecordClaims(raw[i])| && RecordClaims(raw[i])[j] == cs[n];
    }
  }

  /**
   * The ambiguous list of the build is sorted, repeats nothing, and none of its keys is left in
   * the alias table.
   */
  lemma AmbiguousListSpec(raw: seq<RawCountry>)
    ensures var ds := Dataset(raw);
            && Sorted(ds.ambiguousAliases) && AT.Distinct(ds.ambiguousAliases)
            && forall k :: k in ds.ambiguousAliases ==> k !in ds.aliasToCanonical
  {
    AT.AmbiguousList(Claims(raw), ManualAliases);
  }

  /** The claimers of `k`, as the alias table counts them, are exactly the countries claiming it. */
  lemma ClaimerSet(raw: seq<RawCountry>, k: string)
    ensures forall id :: id in AT.Ids(Claims(raw), k) <==> ClaimedBy(raw, k, id)
  {
    forall id ensures id in AT.Ids(Claims(raw), k) <==> ClaimedBy(raw, k, id) {
      IdsAreClaimers(raw, k, id);
    }
  }

  /**
   * A non-empty key that one country alone claims resolves to that country and is not
   * ambiguous.
   */
  lemma SoleClaimResolves(raw: seq<RawCountry>, k: string, id: string)
    requires HasIds(raw) && k != []
    requires ClaimedBy(raw, k, id)
    requires forall other :: ClaimedBy(raw, k, other) ==> other == id
    ensures k in Dataset(raw).aliasToCanonical && Dataset(raw).aliasToCanonical[k] == id
    ensures k !in Dataset(raw).ambiguousAliases
  {
    ClaimsHaveIds(raw);
    ClaimerSet(raw, k);
    AT.SoleClaimer(Claims(raw), ManualAliases, k, id);
  }

  /** A key claimed by two different countries is dropped from the table and listed as ambiguous. */
  lemma ContestedKeyDropped(raw: seq<RawCountry>, k: string, id1: string, id2: string)
    requires HasIds(raw) && k != []
    requires ClaimedBy(raw, k, id1) && ClaimedBy(raw, k, id2) && id1 != id2
    ensures k !in Dataset(raw).aliasToCanonical
    ensures k in Dataset(raw).ambiguousAliases
  {
    ClaimsHaveIds(raw);
    ClaimerSet(raw, k);
    AT.ContestedKey(Claims(raw), ManualAliases, k, id1, id2);
  }

  /**
   * A key no country claims resolves exactly when a manual alias names it, and then to the
   * manual country.
   */
  lemma UnclaimedKeyManual(raw: seq<RawCountry>, k: string)
    requires HasIds(raw)
    requires forall id :: !ClaimedBy(raw, k, id)
    ensures k in Dataset(raw).aliasToCanonical <==> AT.ManualFirst(ManualAliases, k).Some?
    ensures k in Dataset(raw).aliasToCanonical ==>
              AT.ManualFirst(ManualAliases, k) == Some(Dataset(raw).aliasToCanonical[k])
  {
    ClaimsHaveIds(raw);
    ClaimerSet(raw, k);
    AT.UnclaimedKey(Claims(raw), ManualAliases, k);
  }

  /** Every record is emitted once, in input order (before the final locale sort). */
  lemma CountriesSpec(raw: seq<RawCountry>)
    ensures |Dataset(raw).countries| == |raw|
    ensures forall i :: 0 <= i < |raw| ==> Dataset(raw).countries[i] == ToCountry(raw[i])
  {
    Seqs.FlattenSingletons(CountryOf, raw);
  }

  /** The letter index sees one entry per record: its first letter and its id. */
  lemma EntriesSpec(raw: seq<RawCountry>)
    ensures |Entries(raw)| == |raw|
    ensures forall i :: 0 <= i < |raw| ==> Entries(raw)[i] == LI.Entry(ToCountry(raw[i]).firstLetter, raw[i].cca3)
  {
    Seqs.FlattenSingletons(IndexEntry, raw);
  }

  /** Country `id` is a record whose display name starts, after canonicalization, with `c`. */
  ghost predicate StartsWithLetter(raw: seq<RawCountry>, c: char, id: string) {
    exists i :: 0 <= i < |raw| && raw[i].cca3 == id && ToCountry(raw[i]).firstLetter == Some(c)
  }

  /**
   * The letter index: a letter is present exactly when some country's key starts with it; its
   * list is sorted and holds exactly the countries whose key starts with it.
   */
  lemma LetterIndexSpec(raw: seq<RawCountry>)
    ensures LI.WellFormed(Dataset(raw).letterIndex)
    ensures forall c :: c in Dataset(raw).letterIndex.buckets <==> exists id :: StartsWithLetter(raw, c, id)
    ensures forall c, id :: c in Dataset(raw).letterIndex.buckets ==>
              Sorted(Dataset(raw).letterIndex.buckets[c])
              && (id in Dataset(raw).letterIndex.buckets[c] <==> StartsWithLetter(raw, c, id))
  {
    var ix := Dataset(raw).letterIndex;
    LetterIndexLetters(raw, ix);
    LetterIndexLists(raw, ix);
  }

  /** An entry of the index input is a record starting with its letter. */
  lemma EntryStartsWith(raw: seq<RawCountry>, c: char, id: string)
    ensures LI.Entry(Some(c), id) in Entries(raw) <==> StartsWithLetter(raw, c, id)
  {
    EntriesSpec(raw);
    if StartsWithLetter(raw, c, id) {
      var i :| 0 <= i < |raw| && raw[i].cca3 == id && ToCountry(raw[i]).firstLetter == Some(c);
      assert Entries(raw)[i] == LI.Entry(Some(c), id);
    }
  }

  /** The letters of the index. */
  lemma LetterIndexLetters(raw: seq<RawCountry>, ix: LI.Index)
    requires ix == LI.Build(Entries(raw))
    ensures LI.WellFormed(ix)
    ensures forall c :: c in ix.buckets <==> exists id :: StartsWithLetter(raw, c, id)
  {
    var es := Entries(raw);
    LI.BuildSpec(es);
    forall c ensures c in ix.buckets <==> exists id :: StartsWithLetter(raw, c, id) {
      if c in ix.buckets {
        var e :| e in es && e.first == Some(c);
        assert e == LI.Entry(Some(c), e.id);
        EntryStartsWith(raw, c, e.id);
      }
      if exists id :: StartsWithLetter(raw, c, id) {
        var id :| StartsWithLetter(raw, c, id);
        EntryStartsWith(raw, c, id);
      }
    }
  }

  /** The list of each letter of the index. */
  lemma LetterIndexLists(raw: seq<RawCountry>, ix: LI.Index)
    requires ix == LI.Build(Entries(raw))
    ensures forall c, id :: c in ix.buckets ==>
              Sorted(ix.buckets[c]) && (id in ix.buckets[c] <==> StartsWithLetter(raw, c, id))
  {
    var es := Entries(raw);
    LI.BuildSpec(es);
    forall c, id | c in ix.buckets
      ensures id in ix.buckets[c] <==> StartsWithLetter(raw, c, id)
    {
      assert id in ix.buckets[c] <==> id in multiset(ix.buckets[c]);
      EntryStartsWith(raw, c, id);
    }
  }

  /** The cca3 codes of the input are pairwise different. */
  predicate UniqueIds(raw: seq<RawCountry>) {
    forall i, j :: 0 <= i < j < |raw| ==> raw[i].cca3 != raw[j].cca3
  }

  /** With unique codes, every country with a first letter is listed exactly once under it. */
  lemma LetterIndexOnce(raw: seq<RawCountry>, i: nat)
    requires UniqueIds(raw) && i < |raw| && ToCountry(raw[i]).firstLetter.Some?
    ensures var c := ToCountry(raw[i]).firstLetter.value;
            c in Dataset(raw).letterIndex.buckets
            && multiset(Dataset(raw).letterIndex.buckets[c])[raw[i].cca3] == 1
  {
    var es := Entries(raw);
    var e := LI.Entry(ToCountry(raw[i]).firstLetter, raw[i].cca3);
    LI.BuildSpec(es);
    EntriesSpec(raw);
    assert es[i] == e;
    forall j, k | 0 <= j < k < |es| ensures es[j] != es[k] {
      assert es[j].id == raw[j].cca3 && es[k].id == raw[k].cca3;
    }
    Seqs.DistinctCount(es, e);
  }

  /** The alias table and the ambiguous list are built from the same claims, in any order. */
  lemma ClaimsPermutation(a: seq<RawCountry>, b: seq<RawCountry>)
    requires multiset(a) == multiset(b)
    ensures forall c :: c in Claims(a) <==> c in Claims(b)
  {
    Seqs.FlattenPermutation(RecordClaims, a, b);
    forall c ensures c in Claims(a) <==> c in Claims(b) {
      assert c in Claims(a) <==> c in multiset(Claims(a));
      assert c in Claims(b) <==> c in multiset(Claims(b));
    }
  }

  lemma PermutationHasIds(a: seq<RawCountry>, b: seq<RawCountry>)
    requires multiset(a) == multiset(b) && HasIds(a)
    ensures HasIds(b)
  {
    forall i | 0 <= i < |b| ensures b[i].cca3 != [] {
      assert b[i] in multiset(a);
      var j :| 0 <= j < |a| && a[j] == b[i];
    }
  }

  /**
   * The alias table, the sorted id lists and the ambiguous list do not depend on the order in
   * which REST Countries lists the records.
   */
  lemma DatasetOrderIndependent(a: seq<RawCountry>, b: seq<RawCountry>)
    requires multiset(a) == multiset(b) && HasIds(a)
    ensures Dataset(a).aliasToCanonical == Dataset(b).aliasToCanonical
    ensures Dataset(a).letterIndex.buckets == Dataset(b).letterIndex.buckets
    ensures Dataset(a).ambiguousAliases == Dataset(b).ambiguousAliases
  {
    PermutationHasIds(a, b);
    ClaimsHaveIds(a);
    ClaimsHaveIds(b);
    ClaimsPermutation(a, b);
    AT.BuildOrderIndependent(Claims(a), Claims(b), ManualAliases);
    Seqs.FlattenPermutation(IndexEntry, a, b);
    LI.BuildBucketsOrderIndependent(Entries(a), Entries(b));
    AmbiguousOrderIndependent(a, b);
  }

  lemma AmbiguousOrderIndependent(a: seq<RawCountry>, b: seq<RawCountry>)
    requires forall k :: k in AT.Build(Claims(a), ManualAliases).ambiguous
                         <==> k in AT.Build(Claims(b), ManualAliases).ambiguous
    ensures Dataset(a).ambiguousAliases == Dataset(b).ambiguousAliases
  {
    var ma := AT.Build(Claims(a), ManualAliases).ambiguous;
    var mb := AT.Build(Claims(b), ManualAliases).ambiguous;
    AT.NoAmbiguousSurvives(Claims(a), ManualAliases);
    AT.NoAmbiguousSurvives(Claims(b), ManualAliases);
    AT.ClaimAllDistinct(AT.Empty, Claims(a));
    AT.ClaimAllDistinct(AT.Empty, Claims(b));
    AT.DistinctSameMembers(ma, mb);
    SortOrderIndependent(ma, mb);
  }

  /**
   * `manifest.counts`: one country per record, one letter per list of the index, one
   * ambiguous alias per contested key.
   */
  lemma ManifestCountsSpec(raw: seq<RawCountry>)
    ensures var ds := Dataset(raw);
            var n := Manifest.Of(|ds.countries|, ds.aliasToCanonical, ds.letterIndex, ds.ambiguousAliases);
            && n.records == |raw|
            && n.letters == |ds.letterIndex.buckets.Keys|
            && n.ambiguousAliases == |set k | k in ds.ambiguousAliases|
  {
    var ds := Dataset(raw);
    CountriesSpec(raw);
    LetterIndexSpec(raw);
    AmbiguousListSpec(raw);
    Manifest.CountsSpec(|ds.countries|, ds.aliasToCanonical, ds.letterIndex, ds.ambiguousAliases);
  }

  /** Unique codes give unique ids in the emitted list. */
  lemma CountryIdsUnique(raw: seq<RawCountry>)
    requires UniqueIds(raw)
    ensures var cs := Dataset(raw).countries;
            forall i, j :: 0 <= i < j < |cs| ==> cs[i].id != cs[j].id
  {
    CountriesSpec(raw);
    forall i | 0 <= i < |raw| ensures Dataset(raw).countries[i].id == raw[i].cca3 {
      ToCountrySpec(raw[i]);
    }
  }

  /** The list of a letter holds exactly the ids of the emitted countries with that first letter. */
  lemma LetterListsOfCountries(raw: seq<RawCountry>, l: char, id: string)
    ensures var ds := Dataset(raw);
            (l in ds.letterIndex.buckets && id in ds.letterIndex.buckets[l]) <==>
            exists i :: 0 <= i < |ds.countries| && ds.countries[i].id == id && ds.countries[i].firstLetter == Some(l)
  {
    LetterIndexSpec(raw);
    CountriesOfLetter(raw, l, id);
  }

  /** `StartsWithLetter` read off the emitted list. */
  lemma CountriesOfLetter(raw: seq<RawCountry>, l: char, id: string)
    ensures var cs := Dataset(raw).countries;
            StartsWithLetter(raw, l, id) <==>
            exists i :: 0 <= i < |cs| && cs[i].id == id && cs[i].firstLetter == Some(l)
  {
    var cs := Dataset(raw).countries;
    CountriesSpec(raw);
    if StartsWithLetter(raw, l, id) {
      var i :| 0 <= i < |raw| && raw[i].cca3 == id && ToCountry(raw[i]).firstLetter == Some(l);
      ToCountrySpec(raw[i]);
      assert cs[i].id == id && cs[i].firstLetter == Some(l);
    }
    if exists i :: 0 <= i < |cs| && cs[i].id == id && cs[i].firstLetter == Some(l) {
      var i :| 0 <= i < |cs| && cs[i].id == id && cs[i].firstLetter == Some(l);
      ToCountrySpec(raw[i]);
      assert raw[i].cca3 == id;
    }
  }
}
