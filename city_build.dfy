/**
 * `buildCities`: the country lookup map, the name filter, then one pass over the kept city
 * records that drops those without a key, emits a city record, remembers the id of every key
 * (`cityIdMap`), feeds the name and its initials into the alias table and the first letter
 * into the letter index; then the manual aliases resolved through `cityIdMap`, the deletion of
 * ambiguous keys and the sorts.
 */
module CityBuild {
  import opened Wrappers
  import opened Text
  import opened Canon
  import opened Sorting
  import Seqs
  import AT = AliasTable
  import LI = LetterIndex
  import Manifest

  /**
   * One record of the cities list. A missing `name` is the empty string; `countryId` is what
   * `parseInt` makes of `country_id` (None for NaN); `latitude`/`longitude` are what
   * `parseFloat` makes of the fields (None for NaN); `stateId` is None when the field is absent.
   */
  datatype RawCity = RawCity(
    id: nat, name: string, countryId: Option<int>,
    latitude: Option<real>, longitude: Option<real>, stateId: Option<nat>)

  /** The fields of a record of the countries list that the build reads. */
  datatype CountryRef = CountryRef(id: int, name: string, iso2: string)

  /** One entry of the emitted city list. */
  datatype City = City(
    id: string, name: string, displayName: string, country: string, countryCode: string,
    stateId: Option<string>, latitude: Option<real>, longitude: Option<real>,
    firstLetter: char, lastLetter: char)

  datatype CityDataset = CityDataset(
    cities: seq<City>, aliasToCanonical: map<string, string>,
    letterIndex: LI.Index, ambiguousAliases: seq<string>)

  /** `countryMap`: `set(country.id, country)` for every country in list order. */
  function CountryMap(refs: seq<CountryRef>): map<int, CountryRef>
    decreases |refs|
  {
    if refs == [] then map[]
    else CountryMap(refs[..|refs| - 1])[refs[|refs| - 1].id := refs[|refs| - 1]]
  }

  /** An id is in the map when some country has it, and then maps to the last such country. */
  lemma {:induction false} CountryMapSpec(refs: seq<CountryRef>, id: int)
    ensures id in CountryMap(refs) <==> exists i :: 0 <= i < |refs| && refs[i].id == id
    ensures forall i :: 0 <= i < |refs| && refs[i].id == id && (forall j :: i < j < |refs| ==> refs[j].id != id)
              ==> id in CountryMap(refs) && CountryMap(refs)[id] == refs[i]
    decreases |refs|
  {
    if refs != [] {
      var p := refs[..|refs| - 1];
      CountryMapSpec(p, id);
      assert forall i :: 0 <= i < |p| ==> p[i] == refs[i];
    }
  }

  /** The lookup loop over the countries list. */
  method BuildCountryMap(refs: seq<CountryRef>) returns (m: map<int, CountryRef>)
    ensures m == CountryMap(refs)
  {
    m := map[];
    var i := 0;
    while i < |refs|
      invariant 0 <= i <= |refs|
      invariant m == CountryMap(refs[..i])
    {
      assert refs[..i + 1][..i] == refs[..i];
      m := m[refs[i].id := refs[i]];
      i := i + 1;
    }
    assert refs[..i] == refs;
  }

  /** `rawCities.filter(...)`: names of at least two characters. */
  function NameFilter(r: RawCity): seq<RawCity> {
    if |r.name| >= 2 then [r] else []
  }

  function Filtered(raw: seq<RawCity>): seq<RawCity> {
    Seqs.Flatten(NameFilter, raw)
  }

  /** The key of the display name. */
  function Key(r: RawCity): string {
    Canonicalize(r.name)
  }

  /** `rawCity.id.toString()` */
  function Id(r: RawCity): string {
    DecimalString(r.id)
  }

  /** The record survives `if (!canonical || !first || !last) continue`. */
  predicate Emitted(r: RawCity) {
    var key := Key(r);
    key != [] && FirstLetter(key).Some? && LastLetter(key).Some?
  }

  /** `parseFloat(x) || null`: NaN and zero both become null. */
  function NonZero(x: Option<real>): Option<real> {
    if x.Some? && x.value != 0.0 then x else None
  }

  /** `rawCity.state_id ? rawCity.state_id.toString() : null` */
  function StateIdString(s: Option<nat>): Option<string> {
    if s.Some? && s.value != 0 then Some(DecimalString(s.value)) else None
  }

  /** `countryMap.get(parseInt(rawCity.country_id))` */
  function Lookup(cmap: map<int, CountryRef>, countryId: Option<int>): Option<CountryRef> {
    if countryId.Some? && countryId.value in cmap then Some(cmap[countryId.value]) else None
  }

  /** The emitted record of a city that survives the key check. */
  function ToCity(cmap: map<int, CountryRef>, r: RawCity): City
    requires Emitted(r)
  {
    var key := Key(r);
    var country := Lookup(cmap, r.countryId);
    City(Id(r), r.name, r.name,
         if country.Some? then country.value.name else "Unknown",
         if country.Some? then country.value.iso2 else "XX",
         StateIdString(r.stateId), NonZero(r.latitude), NonZero(r.longitude),
         FirstLetter(key).value, LastLetter(key).value)
  }

  function CityOf(cmap: map<int, CountryRef>, r: RawCity): seq<City> {
    if Emitted(r) then [ToCity(cmap, r)] else []
  }

  /** The cities pushed by the loop, before the final locale sort. */
  function Cities(cmap: map<int, CountryRef>, f: seq<RawCity>): seq<City> {
    Seqs.Flatten((r: RawCity) => CityOf(cmap, r), f)
  }

  /** The initials alias of a multi-word name of at most three words, if at least two long. */
  function InitialsAlias(name: string): Option<string> {
    if ' ' in name then
      var words := Split(name, ' ');
      if |words| <= 3 then
        var initials := Lower(Seqs.Flatten(FirstChar, words));
        if |initials| >= 2 then Some(initials) else None
      else None
    else None
  }

  /** The alias set of a city: its name, then its initials. */
  function Aliases(r: RawCity): seq<string> {
    AT.Dedup([r.name] + (if InitialsAlias(r.name).Some? then [InitialsAlias(r.name).value] else []))
  }

  function RecordClaims(r: RawCity): seq<AT.Claim> {
    if Emitted(r) then AT.ClaimsOf(Aliases(r), Id(r)) else []
  }

  function Claims(f: seq<RawCity>): seq<AT.Claim> {
    Seqs.Flatten(RecordClaims, f)
  }

  function IndexEntry(r: RawCity): seq<LI.Entry> {
    if Emitted(r) then [LI.Entry(FirstLetter(Key(r)), Id(r))] else []
  }

  function Entries(f: seq<RawCity>): seq<LI.Entry> {
    Seqs.Flatten(IndexEntry, f)
  }

  /** `cityIdMap`: `set(canonical, cityId)` for every emitted city, in order. */
  function IdMap(f: seq<RawCity>): map<string, string> {
    Seqs.AssocBy(Emitted, Key, Id, f)
  }

  /** `manualAliasMapping`: canonical city name, alias, in declaration order. */
  const ManualMapping: seq<(string, string)> := [
    ("newyorkcity", "nyc"), ("newyork", "nyc"), ("losangeles", "la"), ("sanfrancisco", "sf"),
    ("washington", "dc"), ("washingtondc", "dc"), ("mumbai", "mumbai"), ("chennai", "chennai"),
    ("kolkata", "kolkata"), ("beijing", "beijing"), ("saintpetersburg", "stpetersburg"),
    ("riodejaneiro", "rio"), ("hochiminhcity", "saigon")
  ]

  /** The manual aliases with their targets looked up in `cityIdMap` (empty when missing). */
  function ManualTargets(idMap: map<string, string>): seq<AT.Manual> {
    seq(|ManualMapping|, i requires 0 <= i < |ManualMapping| =>
      AT.Manual(ManualMapping[i].1, if ManualMapping[i].0 in idMap then idMap[ManualMapping[i].0] else []))
  }

  /** The artifacts of the build. */
  function Dataset(refs: seq<CountryRef>, raw: seq<RawCity>): CityDataset {
    var f := Filtered(raw);
    var st := AT.Build(Claims(f), ManualTargets(IdMap(f)));
    CityDataset(Cities(CountryMap(refs), f), AT.Final(st), LI.Build(Entries(f)), Sort(st.ambiguous))
  }

  /** Extending the processed prefix by one record extends each artifact by that record. */
  lemma PrefixStep(cmap: map<int, CountryRef>, f: seq<RawCity>, i: nat)
    requires i < |f|
    ensures Cities(cmap, f[..i + 1]) == Cities(cmap, f[..i]) + CityOf(cmap, f[i])
    ensures Claims(f[..i + 1]) == Claims(f[..i]) + RecordClaims(f[i])
    ensures Entries(f[..i + 1]) == Entries(f[..i]) + IndexEntry(f[i])
    ensures IdMap(f[..i + 1]) == if Emitted(f[i]) then IdMap(f[..i])[Key(f[i]) := Id(f[i])] else IdMap(f[..i])
  {
    assert f[..i + 1][..i] == f[..i];
  }

  /** The body of `buildCities` after the fetches, minus the locale sort of `cities`. */
  method BuildCities(refs: seq<CountryRef>, raw: seq<RawCity>) returns (ds: CityDataset)
    ensures ds == Dataset(refs, raw)
  {
    var cmap := BuildCountryMap(refs);
    var f := Filtered(raw);
    var cities: seq<City> := [];
    var st := AT.Empty;
    var ix := LI.Empty;
    var idMap: map<string, string> := map[];
    var i := 0;
    while i < |f|
      invariant 0 <= i <= |f|
      invariant cities == Cities(cmap, f[..i])
      invariant st == AT.ClaimAll(AT.Empty, Claims(f[..i]))
      invariant ix == LI.PushAll(LI.Empty, Entries(f[..i]))
      invariant idMap == IdMap(f[..i])
    {
      PrefixStep(cmap, f, i);
      AT.ClaimAllConcat(AT.Empty, Claims(f[..i]), RecordClaims(f[i]));
      LI.PushAllConcat(LI.Empty, Entries(f[..i]), IndexEntry(f[i]));
      cities, st, ix, idMap := Absorb(cmap, f[i], cities, st, ix, idMap);
      i := i + 1;
    }
    assert f[..i] == f;
    st := AT.ApplyManual(st, ManualTargets(idMap));
    var table := AT.DeleteAmbiguous(st);
    LI.PushAllSpec(Entries(f));
    ix := LI.SortEach(ix);
    ds := CityDataset(cities, table, ix, Sort(st.ambiguous));
  }

  /** One iteration of the record loop: the record's city, aliases, index entry and id. */
  method Absorb(cmap: map<int, CountryRef>, r: RawCity, cities: seq<City>, st: AT.AliasState, ix: LI.Index,
                idMap: map<string, string>)
    returns (cities': seq<City>, st': AT.AliasState, ix': LI.Index, idMap': map<string, string>)
    ensures cities' == cities + CityOf(cmap, r)
    ensures st' == AT.ClaimAll(st, RecordClaims(r))
    ensures ix' == LI.PushAll(ix, IndexEntry(r))
    ensures idMap' == if Emitted(r) then idMap[Key(r) := Id(r)] else idMap
  {
    var key := Canonicalize(r.name);
    var first := FirstLetter(key);
    var last := LastLetter(key);
    if key != [] && first.Some? && last.Some? {
      var id := DecimalString(r.id);
      cities' := cities + [ToCity(cmap, r)];
      idMap' := idMap[key := id];
      st' := AT.AddClaims(st, Aliases(r), id);
      ix' := LI.Push(ix, LI.Entry(first, id));
      assert [LI.Entry(first, id)][..0] == [];
    } else {
      cities', st', ix', idMap' := cities, st, ix, idMap;
    }
  }

  /** A record is emitted exactly when its display name has a non-empty key. */
  lemma EmittedSpec(r: RawCity)
    ensures Emitted(r) <==> Key(r) != []
    ensures Emitted(r) ==> FirstLetter(Key(r)) == Some(Key(r)[0])
                           && LastLetter(Key(r)) == Some(Key(r)[|Key(r)| - 1])
  {
    KeyLetters(Key(r));
  }

  /** The filter keeps the records whose name has at least two characters. */
  lemma FilteredSpec(raw: seq<RawCity>, r: RawCity)
    ensures r in Filtered(raw) <==> r in raw && |r.name| >= 2
  {
    Seqs.FlattenMembers(NameFilter, raw, r);
    if r in raw && |r.name| >= 2 {
      var i :| 0 <= i < |raw| && raw[i] == r;
      assert r in NameFilter(raw[i]);
    }
  }

  /** A city is emitted for exactly the records that pass the filter and have a key. */
  lemma CitiesMembers(refs: seq<CountryRef>, raw: seq<RawCity>, c: City)
    ensures c in Dataset(refs, raw).cities <==>
              exists r :: r in raw && |r.name| >= 2 && Emitted(r) && c == ToCity(CountryMap(refs), r)
  {
    var cmap := CountryMap(refs);
    CitiesOfRecords(cmap, raw, Cities(cmap, Filtered(raw)), c);
  }

  lemma CitiesOfRecords(cmap: map<int, CountryRef>, raw: seq<RawCity>, cs: seq<City>, c: City)
    requires cs == Cities(cmap, Filtered(raw))
    ensures c in cs <==> exists r :: r in raw && |r.name| >= 2 && Emitted(r) && c == ToCity(cmap, r)
  {
    if c in cs {
      CityHasRecord(cmap, raw, cs, c);
    }
    if exists r :: r in raw && |r.name| >= 2 && Emitted(r) && c == ToCity(cmap, r) {
      var r :| r in raw && |r.name| >= 2 && Emitted(r) && c == ToCity(cmap, r);
      RecordHasCity(cmap, raw, cs, r);
    }
  }

  lemma CityHasRecord(cmap: map<int, CountryRef>, raw: seq<RawCity>, cs: seq<City>, c: City)
    requires cs == Cities(cmap, Filtered(raw)) && c in cs
    ensures exists r :: r in raw && |r.name| >= 2 && Emitted(r) && c == ToCity(cmap, r)
  {
    var f := Filtered(raw);
    Seqs.FlattenMembers((r: RawCity) => CityOf(cmap, r), f, c);
    var i :| 0 <= i < |f| && c in CityOf(cmap, f[i]);
    FilteredSpec(raw, f[i]);
  }

  lemma RecordHasCity(cmap: map<int, CountryRef>, raw: seq<RawCity>, cs: seq<City>, r: RawCity)
    requires cs == Cities(cmap, Filtered(raw)) && r in raw && |r.name| >= 2 && Emitted(r)
    ensures ToCity(cmap, r) in cs
  {
    var f := Filtered(raw);
    FilteredSpec(raw, r);
    var i :| 0 <= i < |f| && f[i] == r;
    assert ToCity(cmap, r) in CityOf(cmap, f[i]);
    Seqs.FlattenMembers((r: RawCity) => CityOf(cmap, r), f, ToCity(cmap, r));
  }

  /**
   * An emitted city has a name of at least two characters whose key is non-empty, and its
   * letters are the first and last character of that key.
   */
  lemma CityRecordSpec(refs: seq<CountryRef>, raw: seq<RawCity>, c: City)
    requires c in Dataset(refs, raw).cities
    ensures |c.name| >= 2 && c.displayName == c.name
    ensures var key := Canonicalize(c.name);
            key != [] && c.firstLetter == key[0] && c.lastLetter == key[|key| - 1]
  {
    CitiesMembers(refs, raw, c);
    var r :| r in raw && |r.name| >= 2 && Emitted(r) && c == ToCity(CountryMap(refs), r);
    EmittedSpec(r);
  }

  /**
   * The initials alias exists only for a name with a space that splits into at most three
   * words; it is at least two and at most three characters long, holds no space, and so is
   * never the name itself.
   */
  lemma InitialsAliasSpec(name: string)
    ensures InitialsAlias(name).Some? ==>
              ' ' in name && 2 <= |Split(name, ' ')| <= 3
              && 2 <= |InitialsAlias(name).value| <= 3
              && ' ' !in InitialsAlias(name).value
              && InitialsAlias(name).value != name
    ensures (' ' in name && |Split(name, ' ')| <= 3
             && |Lower(Seqs.Flatten(FirstChar, Split(name, ' ')))| >= 2) ==> InitialsAlias(name).Some?
  {
    if InitialsAlias(name).Some? {
      var words := Split(name, ' ');
      var raw := Seqs.Flatten(FirstChar, words);
      var a := Lower(raw);
      SplitCount(name, ' ');
      SplitNoSeparator(name, ' ');
      InitialsNoSpace(words);
      InitialsLength(words);
      forall i | 0 <= i < |a| ensures a[i] != ' ' {
        LowerCharSpace(raw[i]);
        assert raw[i] in raw;
      }
    }
  }

  /** The first characters of pieces that hold no space hold no space. */
  lemma InitialsNoSpace(words: seq<string>)
    requires forall w :: w in words ==> ' ' !in w
    ensures ' ' !in Seqs.Flatten(FirstChar, words)
  {
    forall x | x in Seqs.Flatten(FirstChar, words) ensures x != ' ' {
      Seqs.FlattenMembers(FirstChar, words, x);
      var i :| 0 <= i < |words| && x in FirstChar(words[i]);
      assert words[i] in words;
    }
  }

  /** One initial per non-empty word at most. */
  lemma {:induction false} InitialsLength(words: seq<string>)
    ensures |Seqs.Flatten(FirstChar, words)| <= |words|
    decreases |words|
  {
    if words != [] {
      InitialsLength(words[..|words| - 1]);
    }
  }

  /** The aliases of a city: its name and, when there is one, its initials alias, once each. */
  lemma AliasesSpec(r: RawCity)
    ensures AT.Distinct(Aliases(r))
    ensures forall a :: a in Aliases(r) <==> a == r.name || Some(a) == InitialsAlias(r.name)
  {
  }

  /** City `id` is emitted and has an alias whose key is `k`. */
  ghost predicate ClaimedBy(raw: seq<RawCity>, k: string, id: string) {
    exists r, a :: r in raw && |r.name| >= 2 && Emitted(r) && Id(r) == id && a in Aliases(r) && Canonicalize(a) == k
  }

  /** The claimers of a key, as the alias table counts them, are the cities claiming it. */
  lemma IdsAreClaimers(raw: seq<RawCity>, k: string, id: string)
    ensures id in AT.Ids(Claims(Filtered(raw)), k) <==> ClaimedBy(raw, k, id)
  {
    var f := Filtered(raw);
    if id in AT.Ids(Claims(f), k) {
      ClaimerIsCity(raw, f, Claims(f), k, id);
    }
    if ClaimedBy(raw, k, id) {
      CityIsClaimer(raw, f, Claims(f), k, id);
    }
  }

  lemma ClaimerIsCity(raw: seq<RawCity>, f: seq<RawCity>, cs: seq<AT.Claim>, k: string, id: string)
    requires f == Filtered(raw) && cs == Claims(f) && id in AT.Ids(cs, k)
    ensures ClaimedBy(raw, k, id)
  {
    var c := AT.Claim(k, id);
    var n :| 0 <= n < |cs| && cs[n].key == k && cs[n].id == id;
    assert cs[n] == c;
    Seqs.FlattenMembers(RecordClaims, f, c);
    var i :| 0 <= i < |f| && c in RecordClaims(f[i]);
    var r := f[i];
    var j :| 0 <= j < |RecordClaims(r)| && RecordClaims(r)[j] == c;
    assert Aliases(r)[j] in Aliases(r);
    FilteredSpec(raw, r);
    assert r in f;
  }

  lemma CityIsClaimer(raw: seq<RawCity>, f: seq<RawCity>, cs: seq<AT.Claim>, k: string, id: string)
    requires f == Filtered(raw) && cs == Claims(f) && ClaimedBy(raw, k, id)
    ensures id in AT.Ids(cs, k)
  {
    var c := AT.Claim(k, id);
    var r, a :| r in raw && |r.name| >= 2 && Emitted(r) && Id(r) == id && a in Aliases(r) && Canonicalize(a) == k;
    FilteredSpec(raw, r);
    var i :| 0 <= i < |f| && f[i] == r;
    var j :| 0 <= j < |Aliases(r)| && Aliases(r)[j] == a;
    assert RecordClaims(f[i])[j] == c;
    Seqs.FlattenMembers(RecordClaims, f, c);
    var n :| 0 <= n < |cs| && cs[n] == c;
  }

  /** City ids are decimal strings, never empty. */
  lemma ClaimsHaveIds(f: seq<RawCity>)
    ensures AT.NonEmptyIds(Claims(f))
  {
    var cs := Claims(f);
    forall n | 0 <= n < |cs| ensures cs[n].id != [] {
      Seqs.FlattenMembers(RecordClaims, f, cs[n]);
      var i :| 0 <= i < |f| && cs[n] in RecordClaims(f[i]);
      var j :| 0 <= j < |RecordClaims(f[i])| && RecordClaims(f[i])[j] == cs[n];
    }
  }

  lemma ClaimerSet(raw: seq<RawCity>, k: string)
    ensures forall id :: id in AT.Ids(Claims(Filtered(raw)), k) <==> ClaimedBy(raw, k, id)
  {
    forall id ensures id in AT.Ids(Claims(Filtered(raw)), k) <==> ClaimedBy(raw, k, id) {
      IdsAreClaimers(raw, k, id);
    }
  }

  /** A non-empty key that one city alone claims resolves to that city and is not ambiguous. */
  lemma SoleClaimResolves(refs: seq<CountryRef>, raw: seq<RawCity>, k: string, id: string)
    requires k != [] && ClaimedBy(raw, k, id)
    requires forall other :: ClaimedBy(raw, k, other) ==> other == id
    ensures k in Dataset(refs, raw).aliasToCanonical && Dataset(refs, raw).aliasToCanonical[k] == id
    ensures k !in Dataset(refs, raw).ambiguousAliases
  {
    var f := Filtered(raw);
    ClaimsHaveIds(f);
    OnlyClaimer(raw, k, id);
    AT.SoleClaimer(Claims(f), ManualTargets(IdMap(f)), k, id);
  }

  lemma OnlyClaimer(raw: seq<RawCity>, k: string, id: string)
    requires ClaimedBy(raw, k, id)
    requires forall other :: ClaimedBy(raw, k, other) ==> other == id
    ensures AT.Ids(Claims(Filtered(raw)), k) == {id}
  {
    ClaimerSet(raw, k);
  }

  /** A key claimed by two different cities is dropped from the table and listed as ambiguous. */
  lemma ContestedKeyDropped(refs: seq<CountryRef>, raw: seq<RawCity>, k: string, id1: string, id2: string)
    requires k != [] && ClaimedBy(raw, k, id1) && ClaimedBy(raw, k, id2) && id1 != id2
    ensures k !in Dataset(refs, raw).aliasToCanonical
    ensures k in Dataset(refs, raw).ambiguousAliases
  {
    var f := Filtered(raw);
    ClaimsHaveIds(f);
    ClaimerSet(raw, k);
    AT.ContestedKey(Claims(f), ManualTargets(IdMap(f)), k, id1, id2);
  }

  /**
   * A manual alias only fills a key no city claims: such a key resolves exactly when some
   * manual entry for it names a canonical city name present in `cityIdMap`, and then to the id
   * `cityIdMap` holds for the name of such an entry.
   */
  lemma ManualFillsGaps(refs: seq<CountryRef>, raw: seq<RawCity>, k: string)
    requires forall id :: !ClaimedBy(raw, k, id)
    ensures var m := IdMap(Filtered(raw));
            k in Dataset(refs, raw).aliasToCanonical <==>
              exists i :: 0 <= i < |ManualMapping| && ManualMapping[i].1 == k && ManualMapping[i].0 in m
    ensures var m := IdMap(Filtered(raw));
            k in Dataset(refs, raw).aliasToCanonical ==>
              exists i :: 0 <= i < |ManualMapping| && ManualMapping[i].1 == k && ManualMapping[i].0 in m
                          && m[ManualMapping[i].0] == Dataset(refs, raw).aliasToCanonical[k]
  {
    var f := Filtered(raw);
    var m := IdMap(f);
    ClaimsHaveIds(f);
    NoClaimer(raw, k);
    AT.UnclaimedKey(Claims(f), ManualTargets(m), k);
    IdMapValues(f);
    ManualTargetsFirst(m, k);
  }

  lemma NoClaimer(raw: seq<RawCity>, k: string)
    requires forall id :: !ClaimedBy(raw, k, id)
    ensures AT.Ids(Claims(Filtered(raw)), k) == {}
  {
    ClaimerSet(raw, k);
  }

  /** The first usable manual entry for `k` is an entry for `k` whose name `cityIdMap` has. */
  lemma ManualTargetsFirst(m: map<string, string>, k: string)
    requires forall n :: n in m ==> m[n] != []
    ensures AT.ManualFirst(ManualTargets(m), k).Some? <==>
              exists i :: 0 <= i < |ManualMapping| && ManualMapping[i].1 == k && ManualMapping[i].0 in m
    ensures AT.ManualFirst(ManualTargets(m), k).Some? ==>
              exists i :: 0 <= i < |ManualMapping| && ManualMapping[i].1 == k && ManualMapping[i].0 in m
                          && m[ManualMapping[i].0] == AT.ManualFirst(ManualTargets(m), k).value
  {
    var ms := ManualTargets(m);
    if exists i :: 0 <= i < |ManualMapping| && ManualMapping[i].1 == k && ManualMapping[i].0 in m {
      var i :| 0 <= i < |ManualMapping| && ManualMapping[i].1 == k && ManualMapping[i].0 in m;
      assert ms[i].alias == k && ms[i].id != [];
    }
    if AT.ManualFirst(ms, k).Some? {
      var i :| 0 <= i < |ms| && ms[i] == AT.Manual(k, AT.ManualFirst(ms, k).value);
      assert ManualMapping[i].0 in m;
    }
  }

  /** Every id `cityIdMap` holds is a city id, so never empty. */
  lemma IdMapValues(f: seq<RawCity>)
    ensures forall k :: k in IdMap(f) ==> IdMap(f)[k] != []
  {
    forall k | k in IdMap(f) ensures IdMap(f)[k] != [] {
      Seqs.AssocByValue(Emitted, Key, Id, f, k);
    }
  }

  /**
   * `cityIdMap` is last-writer-wins: a key is present when some emitted city has it, and holds
   * the id of the last such city.
   */
  lemma IdMapSpec(f: seq<RawCity>, k: string)
    ensures k in IdMap(f) <==> exists i :: 0 <= i < |f| && Emitted(f[i]) && Key(f[i]) == k
    ensures forall i :: 0 <= i < |f| && Emitted(f[i]) && Key(f[i]) == k
                        && (forall j :: i < j < |f| && Emitted(f[j]) ==> Key(f[j]) != k)
              ==> k in IdMap(f) && IdMap(f)[k] == Id(f[i])
    ensures k in IdMap(f) ==> exists i :: 0 <= i < |f| && Emitted(f[i]) && Key(f[i]) == k && IdMap(f)[k] == Id(f[i])
  {
    Seqs.AssocByKeys(Emitted, Key, Id, f, k);
    Seqs.AssocByValue(Emitted, Key, Id, f, k);
    forall i | 0 <= i < |f| && Emitted(f[i]) && Key(f[i]) == k
                 && (forall j :: i < j < |f| && Emitted(f[j]) ==> Key(f[j]) != k)
      ensures k in IdMap(f) && IdMap(f)[k] == Id(f[i])
    {
      Seqs.AssocByLast(Emitted, Key, Id, f, k, i);
    }
  }

  /** What the letter index sees of the records that pass the filter. */
  lemma EntriesMembers(raw: seq<RawCity>, e: LI.Entry)
    ensures e in Entries(Filtered(raw)) <==>
              exists r :: r in raw && |r.name| >= 2 && Emitted(r) && e == LI.Entry(FirstLetter(Key(r)), Id(r))
  {
    var f := Filtered(raw);
    Seqs.FlattenMembers(IndexEntry, f, e);
    if e in Entries(f) {
      var i :| 0 <= i < |f| && e in IndexEntry(f[i]);
      FilteredSpec(raw, f[i]);
    }
    if exists r :: r in raw && |r.name| >= 2 && Emitted(r) && e == LI.Entry(FirstLetter(Key(r)), Id(r)) {
      var r :| r in raw && |r.name| >= 2 && Emitted(r) && e == LI.Entry(FirstLetter(Key(r)), Id(r));
      FilteredSpec(raw, r);
      var i :| 0 <= i < |f| && f[i] == r;
      assert e in IndexEntry(f[i]);
    }
  }

  /** City `id` passes the filter, is emitted and its key starts with `c`. */
  ghost predicate IndexedUnder(raw: seq<RawCity>, c: char, id: string) {
    exists r :: r in raw && |r.name| >= 2 && Emitted(r) && Key(r)[0] == c && Id(r) == id
  }

  /**
   * The letter index of the cities: a letter is present exactly when some emitted city's key
   * starts with it; its list is sorted and holds exactly those cities.
   */
  lemma LetterIndexSpec(refs: seq<CountryRef>, raw: seq<RawCity>)
    ensures LI.WellFormed(Dataset(refs, raw).letterIndex)
    ensures forall c :: c in Dataset(refs, raw).letterIndex.buckets <==> exists id :: IndexedUnder(raw, c, id)
    ensures forall c, id :: c in Dataset(refs, raw).letterIndex.buckets ==>
              Sorted(Dataset(refs, raw).letterIndex.buckets[c])
              && (id in Dataset(refs, raw).letterIndex.buckets[c] <==> IndexedUnder(raw, c, id))
  {
    var ix := Dataset(refs, raw).letterIndex;
    LetterIndexLetters(raw, ix);
    LetterIndexLists(raw, ix);
  }

  /** An entry of the index input is a city indexed under its letter. */
  lemma EntryIndexedUnder(raw: seq<RawCity>, c: char, id: string)
    ensures LI.Entry(Some(c), id) in Entries(Filtered(raw)) <==> IndexedUnder(raw, c, id)
  {
    EntriesMembers(raw, LI.Entry(Some(c), id));
    if IndexedUnder(raw, c, id) {
      var r :| r in raw && |r.name| >= 2 && Emitted(r) && Key(r)[0] == c && Id(r) == id;
      EmittedSpec(r);
    }
    if LI.Entry(Some(c), id) in Entries(Filtered(raw)) {
      var r :| r in raw && |r.name| >= 2 && Emitted(r) && LI.Entry(Some(c), id) == LI.Entry(FirstLetter(Key(r)), Id(r));
      EmittedSpec(r);
    }
  }

  /** The letters of the index. */
  lemma LetterIndexLetters(raw: seq<RawCity>, ix: LI.Index)
    requires ix == LI.Build(Entries(Filtered(raw)))
    ensures LI.WellFormed(ix)
    ensures forall c :: c in ix.buckets <==> exists id :: IndexedUnder(raw, c, id)
  {
    var es := Entries(Filtered(raw));
    LI.BuildSpec(es);
    forall c ensures c in ix.buckets <==> exists id :: IndexedUnder(raw, c, id) {
      if c in ix.buckets {
        var e :| e in es && e.first == Some(c);
        assert e == LI.Entry(Some(c), e.id);
        EntryIndexedUnder(raw, c, e.id);
      }
      if exists id :: IndexedUnder(raw, c, id) {
        var id :| IndexedUnder(raw, c, id);
        EntryIndexedUnder(raw, c, id);
      }
    }
  }

  /** The list of each letter of the index. */
  lemma LetterIndexLists(raw: seq<RawCity>, ix: LI.Index)
    requires ix == LI.Build(Entries(Filtered(raw)))
    ensures forall c, id :: c in ix.buckets ==>
              Sorted(ix.buckets[c]) && (id in ix.buckets[c] <==> IndexedUnder(raw, c, id))
  {
    var es := Entries(Filtered(raw));
    LI.BuildSpec(es);
    forall c, id | c in ix.buckets
      ensures id in ix.buckets[c] <==> IndexedUnder(raw, c, id)
    {
      assert id in ix.buckets[c] <==> id in multiset(ix.buckets[c]);
      EntryIndexedUnder(raw, c, id);
    }
  }

  /** The ids of the input records are pairwise different. */
  predicate UniqueIds(raw: seq<RawCity>) {
    forall i, j :: 0 <= i < j < |raw| ==> raw[i].id != raw[j].id
  }

  /** No record before the last one has the last one's id, so none has its index entry. */
  lemma NoEarlierEntry(p: seq<RawCity>, x: RawCity, e: LI.Entry)
    requires UniqueIds(p + [x])
    ensures e in IndexEntry(x) ==> e !in Entries(Filtered(p))
  {
    forall y | y in Filtered(p) ensures e in IndexEntry(x) ==> e !in IndexEntry(y) {
      FilteredSpec(p, y);
      var j :| 0 <= j < |p| && p[j] == y;
      assert (p + [x])[j] == y && (p + [x])[|p|] == x;
      DecimalStringInjective(y.id, x.id);
    }
    Seqs.FlattenMembers(IndexEntry, Filtered(p), e);
  }

  /** With unique ids, no entry reaches the letter index twice. */
  lemma {:induction false} EntryCount(raw: seq<RawCity>, e: LI.Entry)
    requires UniqueIds(raw)
    ensures multiset(Entries(Filtered(raw)))[e] <= 1
    decreases |raw|
  {
    if raw != [] {
      var p := raw[..|raw| - 1];
      var x := raw[|raw| - 1];
      assert raw == p + [x];
      UniquePrefix(raw);
      EntryCount(p, e);
      EntriesSnoc(p, x);
      NoEarlierEntry(p, x, e);
      AtMostOnce(Entries(Filtered(p)), if |x.name| >= 2 then IndexEntry(x) else [], e);
    }
  }

  lemma UniquePrefix(raw: seq<RawCity>)
    requires UniqueIds(raw) && raw != []
    ensures UniqueIds(raw[..|raw| - 1])
  {
    var p := raw[..|raw| - 1];
    forall i, j | 0 <= i < j < |p| ensures p[i].id != p[j].id {
      assert p[i] == raw[i] && p[j] == raw[j];
    }
  }

  /** The index entries of the filtered records, one record more. */
  lemma EntriesSnoc(p: seq<RawCity>, x: RawCity)
    ensures Entries(Filtered(p + [x])) == Entries(Filtered(p)) + if |x.name| >= 2 then IndexEntry(x) else []
  {
    Seqs.FlattenConcat(NameFilter, p, [x]);
    assert [x][..0] == [];
    Seqs.FlattenConcat(IndexEntry, Filtered(p), NameFilter(x));
  }

  lemma AtMostOnce<T>(a: seq<T>, b: seq<T>, e: T)
    requires multiset(a)[e] <= 1 && |b| <= 1 && (e in b ==> e !in a)
    ensures multiset(a + b)[e] <= 1
  {
    assert multiset(a + b) == multiset(a) + multiset(b);
  }

  /** With unique ids, every emitted city is listed exactly once under the first letter of its key. */
  lemma LetterIndexOnce(refs: seq<CountryRef>, raw: seq<RawCity>, r: RawCity)
    requires UniqueIds(raw) && r in raw && |r.name| >= 2 && Emitted(r)
    ensures Key(r)[0] in Dataset(refs, raw).letterIndex.buckets
    ensures multiset(Dataset(refs, raw).letterIndex.buckets[Key(r)[0]])[Id(r)] == 1
  {
    var es := Entries(Filtered(raw));
    var e := LI.Entry(Some(Key(r)[0]), Id(r));
    EmittedSpec(r);
    EntriesMembers(raw, e);
    EntryCount(raw, e);
    LI.BuildSpec(es);
    assert e in es;
    assert multiset(es)[e] >= 1;
  }

  /**
   * `manifest.counts`: one letter per list of the index, one ambiguous alias per contested
   * key, one alias per key of the final table.
   */
  lemma ManifestCountsSpec(refs: seq<CountryRef>, raw: seq<RawCity>)
    ensures var ds := Dataset(refs, raw);
            var n := Manifest.Of(|ds.cities|, ds.aliasToCanonical, ds.letterIndex, ds.ambiguousAliases);
            && n.letters == |ds.letterIndex.buckets.Keys|
            && n.ambiguousAliases == |set k | k in ds.ambiguousAliases|
  {
    var ds := Dataset(refs, raw);
    var f := Filtered(raw);
    LetterIndexSpec(refs, raw);
    AT.AmbiguousList(Claims(f), ManualTargets(IdMap(f)));
    Manifest.CountsSpec(|ds.cities|, ds.aliasToCanonical, ds.letterIndex, ds.ambiguousAliases);
  }
}
