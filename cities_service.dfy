/**
 * The client-side cities service: its own canonicalizer (which keeps digits and strips no
 * article), the matching of a search result against the typed name, and the module-level
 * response cache with a five-minute time-to-live. The network is a parameter: a fetch is
 * given as its outcome, `Success(payload)` or `Failure(message)`, and the clock as `now`.
 */
module CitiesService {
  import opened Wrappers
  import opened Text
  import Canon

  // ---------------------------------------------------------------------------------------
  // The runtime canonicalizer
  // ---------------------------------------------------------------------------------------

  /** Decompose, drop combining marks, keep `a`-`z` and `0`-`9`. */
  function Alnums(s: string): string
  {
    Filter(IsAsciiAlnum, Filter(Canon.NotMark, Canon.Nfd(s)))
  }

  /** `name.toLowerCase().normalize('NFD')`, marks removed, `[^a-z0-9]` removed, then trimmed. */
  function RuntimeCanonicalize(name: string): string
  {
    Trim(Alnums(Lower(name)))
  }

  /** Only `a`-`z` and `0`-`9` remain, so the final trim never removes anything. */
  lemma RuntimeCanonicalizeSpec(name: string)
    ensures forall c :: c in RuntimeCanonicalize(name) ==> IsAsciiAlnum(c)
    ensures RuntimeCanonicalize(name) == Alnums(Lower(name))
  {
    var s := Alnums(Lower(name));
    assert forall c :: c in s ==> !IsWhitespace(c) by {
      forall c | c in s ensures !IsWhitespace(c) {
        assert IsAsciiAlnum(c);
      }
    }
    TrimNoWhitespace(s);
  }

  lemma AlnumsConcat(a: string, b: string)
    ensures Alnums(a + b) == Alnums(a) + Alnums(b)
  {
    Canon.NfdConcat(a, b);
    FilterConcat(Canon.NotMark, Canon.Nfd(a), Canon.Nfd(b));
    FilterConcat(IsAsciiAlnum, Filter(Canon.NotMark, Canon.Nfd(a)), Filter(Canon.NotMark, Canon.Nfd(b)));
  }

  /** A string of `a`-`z` and `0`-`9` is its own runtime canonical form. */
  lemma RuntimeCanonicalizeFixes(s: string)
    requires forall c :: c in s ==> IsAsciiAlnum(c)
    ensures RuntimeCanonicalize(s) == s
  {
    assert Lower(s) == s by {
      forall i | 0 <= i < |s| ensures Lower(s)[i] == s[i] {
        assert s[i] in s;
      }
    }
    Canon.NfdIdentity(s);
    FilterKeepsAll(Canon.NotMark, s);
    FilterKeepsAll(IsAsciiAlnum, s);
    RuntimeCanonicalizeSpec(s);
  }

  /** The runtime canonicalizer is idempotent. */
  lemma RuntimeCanonicalizeIdempotent(name: string)
    ensures RuntimeCanonicalize(RuntimeCanonicalize(name)) == RuntimeCanonicalize(name)
  {
    RuntimeCanonicalizeSpec(name);
    RuntimeCanonicalizeFixes(RuntimeCanonicalize(name));
  }

  /** The article, all ASCII, loses only its space. */
  lemma AlnumsOfArticle()
    ensures Alnums(Canon.Article) == "the"
  {
    var a := Canon.Article;
    assert forall c :: c in a ==> c < '\U{80}';
    Canon.NfdIdentity(a);
    FilterKeepsAll(Canon.NotMark, a);
    AlnumFilterOfArticle(a);
  }

  lemma AlnumFilterOfArticle(a: string)
    requires a == "the "
    ensures Filter(IsAsciiAlnum, a) == "the"
  {
    assert a[1..][1..][1..][1..] == [];
    assert Filter(IsAsciiAlnum, a[1..][1..][1..]) == [];
    assert Filter(IsAsciiAlnum, a[1..][1..]) == "e";
    assert Filter(IsAsciiAlnum, a[1..]) == "he";
  }

  /** Unlike the build canonicalizer, a leading "The " is kept: it contributes "the". */
  lemma RuntimeKeepsArticle(x: string)
    ensures RuntimeCanonicalize("The " + x) == "the" + RuntimeCanonicalize(x)
  {
    var lx := Lower(x);
    Canon.LowerWithArticle(x);
    AlnumsConcat(Canon.Article, lx);
    AlnumsOfArticle();
    RuntimeCanonicalizeSpec("The " + x);
    RuntimeCanonicalizeSpec(x);
    assert Alnums(Lower("The " + x)) == Alnums(Canon.Article + lx);
  }

  /** Lower-casing, decomposing and dropping marks never produce a digit. */
  lemma NoNewDigits(x: string)
    requires forall c :: c in x ==> !IsAsciiDigit(c)
    ensures forall c :: c in Filter(Canon.NotMark, Canon.Nfd(Lower(x))) ==> !IsAsciiDigit(c)
  {
    forall c | c in Filter(Canon.NotMark, Canon.Nfd(Lower(x))) ensures !IsAsciiDigit(c) {
      if c in Lower(x) {
        var i :| 0 <= i < |Lower(x)| && Lower(x)[i] == c;
        assert x[i] in x;
      }
    }
  }

  /**
   * The two canonicalizers coincide on names without digits and without a leading article:
   * there the runtime form is the build key.
   */
  lemma RuntimeAgreesWithBuild(x: string)
    requires forall c :: c in x ==> !IsAsciiDigit(c)
    requires !StartsWith(Trim(Lower(x)), Canon.Article)
    ensures RuntimeCanonicalize(x) == Canon.Canonicalize(x)
  {
    RuntimeCanonicalizeSpec(x);
    if x != [] {
      Canon.CanonicalizeNoArticle(x);
      NoNewDigits(x);
      FilterAgree(IsAsciiAlnum, IsAsciiLetter, Filter(Canon.NotMark, Canon.Nfd(Lower(x))));
    }
  }

  // ---------------------------------------------------------------------------------------
  // Matching a search result against the typed name
  // ---------------------------------------------------------------------------------------

  /** The fields of a search hit that the matching reads. */
  datatype Candidate = Candidate(id: string, displayName: string)

  /** The test of the loop: the candidate's canonical display name equals or contains the query. */
  predicate Accepts(c: Candidate, canonical: string)
  {
    var d := RuntimeCanonicalize(c.displayName);
    d == canonical || Contains(d, canonical)
  }

  /** A `for ... of` loop that returns the id of the first candidate passing `hit`. */
  function FirstHit(cities: seq<Candidate>, hit: Candidate -> bool): Option<string>
    decreases |cities|
  {
    if cities == [] then None
    else if hit(cities[0]) then Some(cities[0].id)
    else FirstHit(cities[1..], hit)
  }

  /** The loop finds the first candidate in list order that passes, and nothing if none does. */
  lemma {:induction false} FirstHitSpec(cities: seq<Candidate>, hit: Candidate -> bool)
    ensures FirstHit(cities, hit).None? <==> forall i :: 0 <= i < |cities| ==> !hit(cities[i])
    ensures FirstHit(cities, hit).Some? ==>
              exists i :: 0 <= i < |cities| && hit(cities[i]) && FirstHit(cities, hit).value == cities[i].id
                          && forall j :: 0 <= j < i ==> !hit(cities[j])
    decreases |cities|
  {
    if cities != [] && !hit(cities[0]) {
      var rest := cities[1..];
      FirstHitSpec(rest, hit);
      if FirstHit(rest, hit).None? {
        forall i | 0 <= i < |cities| ensures !hit(cities[i]) {
          if i > 0 {
            assert cities[i] == rest[i - 1];
          }
        }
      } else {
        var i :| 0 <= i < |rest| && hit(rest[i]) && FirstHit(rest, hit).value == rest[i].id
                 && forall j :: 0 <= j < i ==> !hit(rest[j]);
        assert cities[i + 1] == rest[i];
        forall j | 0 <= j < i + 1 ensures !hit(cities[j]) {
          if j > 0 {
            assert cities[j] == rest[j - 1];
          }
        }
      }
    }
  }

  /** The loop of `resolveAlias`: the first candidate whose canonical display name holds the query. */
  function FirstContaining(cities: seq<Candidate>, canonical: string): Option<string>
  {
    FirstHit(cities, c => Accepts(c, canonical))
  }

  /** The matching of `resolveAlias` once the candidate list is known. */
  function MatchCandidates(name: string, cities: seq<Candidate>): Option<string>
  {
    var canonical := RuntimeCanonicalize(name);
    match FirstContaining(cities, canonical)
    case Some(id) => Some(id)
    case None =>
      if |cities| > 0 then
        var firstCanonical := RuntimeCanonicalize(cities[0].displayName);
        if Contains(firstCanonical, canonical) || Contains(canonical, firstCanonical) then Some(cities[0].id)
        else None
      else None
  }

  /** The first accepting candidate, in list order, gives the result. */
  lemma MatchFirstAccepting(name: string, cities: seq<Candidate>, i: nat)
    requires i < |cities| && Accepts(cities[i], RuntimeCanonicalize(name))
    requires forall j :: 0 <= j < i ==> !Accepts(cities[j], RuntimeCanonicalize(name))
    ensures MatchCandidates(name, cities) == Some(cities[i].id)
  {
    var canonical := RuntimeCanonicalize(name);
    var hit := c => Accepts(c, canonical);
    FirstHitSpec(cities, hit);
    var k :| 0 <= k < |cities| && hit(cities[k]) && FirstHit(cities, hit).value == cities[k].id
             && forall j :: 0 <= j < k ==> !hit(cities[j]);
  }

  /**
   * When no candidate accepts, the first one is taken exactly when the query contains its
   * canonical name (the other half of the fallback test can no longer hold); an empty list
   * gives nothing.
   */
  lemma MatchFallback(name: string, cities: seq<Candidate>)
    requires forall i :: 0 <= i < |cities| ==> !Accepts(cities[i], RuntimeCanonicalize(name))
    ensures MatchCandidates(name, cities) ==
              if |cities| > 0 && Contains(RuntimeCanonicalize(name), RuntimeCanonicalize(cities[0].displayName))
              then Some(cities[0].id) else None
  {
    FirstHitSpec(cities, c => Accepts(c, RuntimeCanonicalize(name)));
    if cities != [] {
      assert !Accepts(cities[0], RuntimeCanonicalize(name));
    }
  }

  /** A match is always one of the candidates' ids. */
  lemma MatchIsCandidate(name: string, cities: seq<Candidate>)
    ensures MatchCandidates(name, cities).Some? ==>
              exists i :: 0 <= i < |cities| && MatchCandidates(name, cities).value == cities[i].id
  {
    FirstHitSpec(cities, c => Accepts(c, RuntimeCanonicalize(name)));
  }

  /** A query whose canonical form is empty is contained in every name: the first candidate wins. */
  lemma EmptyQueryTakesFirst(name: string, cities: seq<Candidate>)
    requires RuntimeCanonicalize(name) == [] && cities != []
    ensures MatchCandidates(name, cities) == Some(cities[0].id)
  {
    ContainsEmpty(RuntimeCanonicalize(cities[0].displayName));
    assert Accepts(cities[0], RuntimeCanonicalize(name));
    MatchFirstAccepting(name, cities, 0);
  }

  /** `resolveAlias(name)` given the outcome of the search request: any error gives `null`. */
  function ResolveAlias(name: string, searched: Result<seq<Candidate>, string>): Option<string>
  {
    match searched
    case Failure(_) => None
    case Success(cities) => MatchCandidates(name, cities)
  }

  /** A resolved id is always the id of one of the returned candidates, and a failed search resolves nothing. */
  lemma ResolveAliasSpec(name: string, searched: Result<seq<Candidate>, string>)
    ensures searched.Failure? ==> ResolveAlias(name, searched) == None
    ensures ResolveAlias(name, searched).Some? ==>
              searched.Success? && exists i :: 0 <= i < |searched.value| && searched.value[i].id == ResolveAlias(name, searched).value
  {
    if searched.Success? {
      MatchIsCandidate(name, searched.value);
    }
  }

  /** The city fields the client receives. */
  datatype CityInfo = CityInfo(id: string, displayName: string, country: string)

  /** `getCityById(id)`: the fetched city, or `undefined` when the request throws. */
  function GetCityById(fetched: Result<CityInfo, string>): (r: Option<CityInfo>)
    ensures r.None? <==> fetched.Failure?
    ensures r.Some? ==> r.value == fetched.value
  {
    match fetched
    case Failure(_) => None
    case Success(city) => Some(city)
  }

  // ---------------------------------------------------------------------------------------
  // Cache keys
  // ---------------------------------------------------------------------------------------

  function LetterKey(letter: string): string { "cities-by-letter-" + Lower(letter) }

  function CityKey(id: string): string { "city-by-id-" + id }

  function SearchKey(name: string): string { "search-" + RuntimeCanonicalize(name) }

  /** Two names share a cached search result exactly when their runtime canonical forms agree. */
  lemma SearchKeyShared(a: string, b: string)
    ensures SearchKey(a) == SearchKey(b) <==> RuntimeCanonicalize(a) == RuntimeCanonicalize(b)
  {
    if SearchKey(a) == SearchKey(b) {
      assert SearchKey(a)[7..] == RuntimeCanonicalize(a);
      assert SearchKey(b)[7..] == RuntimeCanonicalize(b);
    }
  }

  /** Upper- and lower-case spellings of a letter share one cache entry. */
  lemma LetterKeyIgnoresCase(letter: string)
    ensures LetterKey(Lower(letter)) == LetterKey(letter)
  {
    assert Lower(Lower(letter)) == Lower(letter) by {
      forall i | 0 <= i < |letter| ensures LowerChar(LowerChar(letter[i])) == LowerChar(letter[i]) {
      }
    }
  }

  // ---------------------------------------------------------------------------------------
  // The response cache
  // ---------------------------------------------------------------------------------------

  /** `CACHE_TTL`, five minutes in milliseconds. */
  const CacheTtl: int := 5 * 60 * 1000

  datatype Entry<T> = Entry(data: T, timestamp: int)

  /** What `getCachedData(key)` returns at time `now` from the entries `cache`. */
  function Lookup<T>(cache: map<string, Entry<T>>, key: string, now: int): Option<T>
  {
    if key in cache && now - cache[key].timestamp < CacheTtl then Some(cache[key].data) else None
  }

  /**
   * After storing `d` under `k` at time `t`, a lookup of `k` gives `d` exactly until `t + TTL`
   * (a clock that goes back also hits), and a lookup of any other key is unaffected.
   */
  lemma StoreThenLookup<T>(cache: map<string, Entry<T>>, k: string, d: T, t: int, now: int)
    ensures Lookup(cache[k := Entry(d, t)], k, now) == (if now < t + CacheTtl then Some(d) else None)
    ensures forall k' :: k' != k ==> Lookup(cache[k := Entry(d, t)], k', now) == Lookup(cache, k', now)
  {
  }

  /** A hit only reports an entry stored under that key, less than five minutes before `now`. */
  lemma LookupSound<T>(cache: map<string, Entry<T>>, key: string, now: int)
    ensures Lookup(cache, key, now).Some? <==> key in cache && cache[key].timestamp > now - CacheTtl
    ensures Lookup(cache, key, now).Some? ==> Lookup(cache, key, now).value == cache[key].data
  {
  }

  /** The module-level `cache` map of the service. */
  class ResponseCache<T> {
    var entries: map<string, Entry<T>>

    constructor ()
      ensures entries == map[]
    {
      entries := map[];
    }

    /** `getCachedData(key)`: a fresh entry is returned; a stale or missing one is deleted. */
    method Get(key: string, now: int) returns (r: Option<T>)
      modifies this
      ensures r == Lookup(old(entries), key, now)
      ensures r.Some? ==> entries == old(entries)
      ensures r.None? ==> entries == old(entries) - {key}
    {
      if key in entries && now - entries[key].timestamp < CacheTtl {
        r := Some(entries[key].data);
      } else {
        entries := entries - {key};
        r := None;
      }
    }

    /** `setCachedData(key, data)` at time `now`. */
    method Set(key: string, data: T, now: int)
      modifies this
      ensures entries == old(entries)[key := Entry(data, now)]
    {
      entries := entries[key := Entry(data, now)];
    }

    /**
     * `fetchWithCache`: a truthy fresh entry is returned as is; otherwise the response is used,
     * a failed response is an error and nothing is stored, and a successful one is stored at
     * `fetchedAt`.
     */
    method FetchWithCache(key: string, truthy: T -> bool, now: int, response: Result<T, string>, fetchedAt: int)
      returns (r: Result<T, string>)
      modifies this
      ensures var hit := Lookup(old(entries), key, now);
              if hit.Some? && truthy(hit.value) then r == Success(hit.value) && entries == old(entries)
              else
                var kept := if hit.Some? then old(entries) else old(entries) - {key};
                r == response &&
                entries == if response.Failure? then kept else old(entries)[key := Entry(response.value, fetchedAt)]
    {
      var cached := Get(key, now);
      if cached.Some? && truthy(cached.value) {
        return Success(cached.value);
      }
      if response.Failure? {
        return response;
      }
      Set(key, response.value, fetchedAt);
      r := response;
    }
  }
}
