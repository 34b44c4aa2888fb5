/**
 * The read-only query layer over the countries artifact: lookup by id, alias resolution with
 * the build's own canonicalizer, the countries of a first letter, and a random letter.
 */
module AtlasData {
  import opened Wrappers
  import opened Text
  import opened Canon
  import Seqs
  import LI = LetterIndex
  import CB = CountryBuild
  import Random

  /** `countriesById`: `new Map(countries.map(c => [c.id, c]))`, so a later duplicate wins. */
  function CountriesById(cs: seq<CB.Country>): map<string, CB.Country> {
    Seqs.AssocBy((c: CB.Country) => true, (c: CB.Country) => c.id, (c: CB.Country) => c, cs)
  }

  /** `countriesById.get(id)` */
  function GetCountryById(byId: map<string, CB.Country>, id: string): Option<CB.Country> {
    if id in byId then Some(byId[id]) else None
  }

  /**
   * A country is found exactly when the list has one with that id; the one found carries the
   * id asked for and is the last in the list to carry it.
   */
  lemma GetCountryByIdSpec(cs: seq<CB.Country>, id: string)
    ensures GetCountryById(CountriesById(cs), id).Some? <==> exists i :: 0 <= i < |cs| && cs[i].id == id
    ensures GetCountryById(CountriesById(cs), id).Some? ==>
              GetCountryById(CountriesById(cs), id).value.id == id
              && GetCountryById(CountriesById(cs), id).value in cs
    ensures forall i :: 0 <= i < |cs| && cs[i].id == id && (forall j :: i < j < |cs| ==> cs[j].id != id)
              ==> GetCountryById(CountriesById(cs), id) == Some(cs[i])
  {
    Seqs.AssocBySpec((c: CB.Country) => true, (c: CB.Country) => c.id, (c: CB.Country) => c, cs, id);
  }

  /** `aliasToCanonical[canonicalize(alias)] || null` */
  function ResolveAlias(table: map<string, string>, alias: string): Option<string> {
    var c := Canonicalize(alias);
    if c in table && table[c] != [] then Some(table[c]) else None
  }

  /** An alias resolves to the id the table holds for its key, whenever that id is non-empty. */
  lemma ResolveAliasSpec(table: map<string, string>, alias: string)
    ensures ResolveAlias(table, alias).Some? <==> Canonicalize(alias) in table && table[Canonicalize(alias)] != []
    ensures ResolveAlias(table, alias).Some? ==> ResolveAlias(table, alias).value == table[Canonicalize(alias)]
  {
  }

  /** A leading article changes nothing: "The Gambia" resolves as "Gambia" does. */
  lemma ResolveIgnoresArticle(table: map<string, string>, x: string)
    requires Trim(Lower(x)) != [] && !StartsWith(Trim(Lower(x)), Article)
    ensures ResolveAlias(table, "The " + x) == ResolveAlias(table, x)
  {
    CanonicalizeDropsArticle(x);
  }

  /**
   * Query keys and table keys agree: an alias of a country whose key no other country claims
   * resolves, against the built table, to that country.
   */
  lemma ResolveOwnAlias(raw: seq<CB.RawCountry>, i: nat, a: string)
    requires CB.HasIds(raw) && i < |raw| && a in CB.Aliases(raw[i]) && Canonicalize(a) != []
    requires forall other :: CB.ClaimedBy(raw, Canonicalize(a), other) ==> other == raw[i].cca3
    ensures ResolveAlias(CB.Dataset(raw).aliasToCanonical, a) == Some(raw[i].cca3)
  {
    assert CB.ClaimedBy(raw, Canonicalize(a), raw[i].cca3);
    CB.SoleClaimResolves(raw, Canonicalize(a), raw[i].cca3);
  }

  /** The countries of `ids` that the map knows, in the order of `ids`. */
  function Known(byId: map<string, CB.Country>, ids: seq<string>): seq<CB.Country>
    decreases |ids|
  {
    if ids == [] then []
    else
      var id := ids[|ids| - 1];
      Known(byId, ids[..|ids| - 1]) + (if id in byId then [byId[id]] else [])
  }

  /** `ids.map(getCountryById).filter(Boolean)` keeps the known ids, in order. */
  lemma {:induction false} KnownSpec(byId: map<string, CB.Country>, ids: seq<string>)
    ensures |Known(byId, ids)| <= |ids|
    ensures forall c :: c in Known(byId, ids) <==> exists id :: id in ids && id in byId && byId[id] == c
    ensures (forall id :: id in ids ==> id in byId) ==>
              |Known(byId, ids)| == |ids| && forall k :: 0 <= k < |ids| ==> Known(byId, ids)[k] == byId[ids[k]]
    decreases |ids|
  {
    if ids != [] {
      var p := ids[..|ids| - 1];
      KnownSpec(byId, p);
      assert ids == p + [ids[|ids| - 1]];
    }
  }

  /** The letter a query is about: the first character of the lower-cased input, if it is a-z. */
  function QueryLetter(letter: string): Option<char> {
    var l := FirstChar(Lower(letter));
    if |l| == 1 && IsAsciiLetter(l[0]) then Some(l[0]) else None
  }

  /** `getCountriesByFirstLetter` */
  function GetCountriesByFirstLetter(ix: LI.Index, byId: map<string, CB.Country>, letter: string): seq<CB.Country> {
    match QueryLetter(letter)
    case None => []
    case Some(l) => Known(byId, if l in ix.buckets then ix.buckets[l] else [])
  }

  /**
   * Only the first character counts, case-insensitively ("Ab" is asked as "a"); an input not
   * starting with a letter gives nothing; the answer is the known countries of that letter's
   * list, in list order.
   */
  lemma GetCountriesByFirstLetterSpec(ix: LI.Index, byId: map<string, CB.Country>, letter: string)
    ensures QueryLetter(letter).Some? <==> letter != [] && IsAsciiLetter(LowerChar(letter[0]))
    ensures QueryLetter(letter).Some? ==>
              GetCountriesByFirstLetter(ix, byId, letter) == GetCountriesByFirstLetter(ix, byId, [LowerChar(letter[0])])
    ensures QueryLetter(letter).None? ==> GetCountriesByFirstLetter(ix, byId, letter) == []
    ensures var r := GetCountriesByFirstLetter(ix, byId, letter);
            forall c :: c in r ==> exists id :: id in byId && byId[id] == c && QueryLetter(letter).Some?
                                                 && QueryLetter(letter).value in ix.buckets
                                                 && id in ix.buckets[QueryLetter(letter).value]
  {
    if QueryLetter(letter).Some? {
      var l := QueryLetter(letter).value;
      assert QueryLetter([LowerChar(letter[0])]) == Some(l);
      KnownSpec(byId, if l in ix.buckets then ix.buckets[l] else []);
    }
  }

  /** The list of `l` in `ix` holds exactly the ids of the countries of `cs` with first letter `l`. */
  ghost predicate ListsLetter(cs: seq<CB.Country>, ix: LI.Index, l: char) {
    && (forall i :: 0 <= i < |cs| && cs[i].firstLetter == Some(l) ==> l in ix.buckets && cs[i].id in ix.buckets[l])
    && (l in ix.buckets ==> forall id :: id in ix.buckets[l] ==>
          exists i :: 0 <= i < |cs| && cs[i].id == id && cs[i].firstLetter == Some(l))
  }

  /**
   * Over a country list with unique ids and an index that lists letters faithfully, the query
   * for a letter returns exactly the countries with that first letter.
   */
  lemma ByLetterOfList(cs: seq<CB.Country>, ix: LI.Index, letter: string)
    requires forall i, j :: 0 <= i < j < |cs| ==> cs[i].id != cs[j].id
    requires QueryLetter(letter).Some? && ListsLetter(cs, ix, QueryLetter(letter).value)
    ensures forall c :: c in GetCountriesByFirstLetter(ix, CountriesById(cs), letter) <==>
                        c in cs && c.firstLetter == QueryLetter(letter)
  {
    var l := QueryLetter(letter).value;
    var byId := CountriesById(cs);
    var ids := if l in ix.buckets then ix.buckets[l] else [];
    assert GetCountriesByFirstLetter(ix, byId, letter) == Known(byId, ids);
    KnownSpec(byId, ids);
    forall i | 0 <= i < |cs| ensures cs[i].id in byId && byId[cs[i].id] == cs[i] {
      GetCountryByIdSpec(cs, cs[i].id);
    }
    forall c | c in Known(byId, ids) ensures c in cs && c.firstLetter == Some(l) {
      var id :| id in ids && id in byId && byId[id] == c;
      var i :| 0 <= i < |cs| && cs[i].id == id && cs[i].firstLetter == Some(l);
    }
    forall c | c in cs && c.firstLetter == Some(l) ensures c in Known(byId, ids) {
      var i :| 0 <= i < |cs| && cs[i] == c;
      assert cs[i].id in ids;
    }
  }

  /**
   * Against the built dataset, with unique country codes, every country returned for a letter
   * has that letter as first letter, and every country with that first letter is returned.
   */
  lemma CountriesByLetterOfDataset(raw: seq<CB.RawCountry>, letter: string)
    requires CB.UniqueIds(raw) && QueryLetter(letter).Some?
    ensures var ds := CB.Dataset(raw);
            var r := GetCountriesByFirstLetter(ds.letterIndex, CountriesById(ds.countries), letter);
            forall c :: c in r <==> c in ds.countries && c.firstLetter == QueryLetter(letter)
  {
    var ds := CB.Dataset(raw);
    var l := QueryLetter(letter).value;
    CB.CountryIdsUnique(raw);
    DatasetListsLetter(raw, l);
    ByLetterOfList(ds.countries, ds.letterIndex, letter);
  }

  lemma DatasetListsLetter(raw: seq<CB.RawCountry>, l: char)
    ensures ListsLetter(CB.Dataset(raw).countries, CB.Dataset(raw).letterIndex, l)
  {
    var cs := CB.Dataset(raw).countries;
    var ix := CB.Dataset(raw).letterIndex;
    forall i | 0 <= i < |cs| && cs[i].firstLetter == Some(l) ensures l in ix.buckets && cs[i].id in ix.buckets[l] {
      CB.LetterListsOfCountries(raw, l, cs[i].id);
    }
    if l in ix.buckets {
      forall id | id in ix.buckets[l] ensures exists i :: 0 <= i < |cs| && cs[i].id == id && cs[i].firstLetter == Some(l) {
        CB.LetterListsOfCountries(raw, l, id);
      }
    }
  }

  /**
   * `available[Math.floor(Math.random() * available.length)]` with the random number `roll`
   * in [0, 1) given: undefined (None) when the index has no letter.
   */
  function GetRandomAvailableLetter(ix: LI.Index, roll: real): Option<char>
    requires 0.0 <= roll < 1.0
  {
    var k := Random.Draw(roll, |ix.order|);
    if 0 <= k < |ix.order| then Some(ix.order[k]) else None
  }

  /** A letter comes back exactly when the index has one, and it is a letter with a list. */
  lemma RandomLetterSpec(ix: LI.Index, roll: real)
    requires LI.WellFormed(ix) && 0.0 <= roll < 1.0
    ensures GetRandomAvailableLetter(ix, roll).Some? <==> ix.order != []
    ensures GetRandomAvailableLetter(ix, roll).Some? ==> GetRandomAvailableLetter(ix, roll).value in ix.buckets
  {
  }

  /**
   * Letter `k` of the key order is drawn exactly by the rolls in the k-th of `n` equal slices
   * of [0, 1), `n` being the number of letters: every letter is equally likely.
   */
  lemma RandomLetterSlices(ix: LI.Index, roll: real, k: nat)
    requires LI.WellFormed(ix) && 0.0 <= roll < 1.0 && k < |ix.order|
    ensures GetRandomAvailableLetter(ix, roll) == Some(ix.order[k]) <==>
            k as real <= roll * |ix.order| as real < (k + 1) as real
  {
    Random.DrawSlices(roll, |ix.order|, k);
  }
}
