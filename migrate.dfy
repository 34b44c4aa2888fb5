/**
 * The one-off migration of the cities artifact into the document store: the base64 literal is
 * found in the artifact's source text, the decoded records are filtered on their required
 * fields (counting the skipped ones and those without coordinates), and the survivors are
 * transformed and inserted in batches of 1000, one record at a time when a batch is refused.
 */
module Migrate {
  import opened Wrappers
  import Seqs

  /**
   * A decoded record. A string field is `None` when it is `null` or absent; coordinates are
   * `None` when `null` or `undefined`.
   */
  datatype RawCity = RawCity(
    id: Option<string>, name: Option<string>, displayName: Option<string>, country: Option<string>,
    countryCode: Option<string>, stateId: Option<string>,
    latitude: Option<real>, longitude: Option<real>,
    firstLetter: Option<string>, lastLetter: Option<string>)

  /** A document as inserted. */
  datatype Document = Document(
    id: string, name: string, displayName: string, country: string,
    countryCode: Option<string>, stateId: Option<string>,
    latitude: real, longitude: real,
    firstLetter: string, lastLetter: string)

  /** JavaScript truthiness of a string field: present and non-empty. */
  predicate Truthy(f: Option<string>) {
    f.Some? && f.value != []
  }

  /** The filter's test: every required field is truthy (`countryCode` is not checked). */
  predicate Required(c: RawCity) {
    Truthy(c.id) && Truthy(c.name) && Truthy(c.displayName) && Truthy(c.country)
    && Truthy(c.firstLetter) && Truthy(c.lastLetter)
  }

  /** The record has no latitude or no longitude. */
  predicate MissingCoords(c: RawCity) {
    c.latitude.None? || c.longitude.None?
  }

  // ---------------------------------------------------------------------------------------
  // Finding the literal

  const Quote: char := '\''
  const NoBase64: string := "Could not find base64 data in the file"

  /** The length of the run of non-quote characters of `text` starting at `from`. */
  function QuoteFreeRun(text: string, from: nat): (n: nat)
    requires from <= |text|
    ensures from + n <= |text|
    ensures forall k :: from <= k < from + n ==> text[k] != Quote
    ensures from + n < |text| ==> text[from + n] == Quote
    decreases |text| - from
  {
    if from == |text| || text[from] == Quote then 0 else 1 + QuoteFreeRun(text, from + 1)
  }

  /** The match of `= '([^']+)'` that starts at position `p`, as its captured group. */
  function LiteralAt(text: string, p: nat): Option<string> {
    if p + 3 <= |text| && text[p..p + 3] == "= '" then
      var n := QuoteFreeRun(text, p + 3);
      if n > 0 && p + 3 + n < |text| then Some(text[p + 3..p + 3 + n]) else None
    else None
  }

  /** The leftmost match `at(q)` for `p <= q < end`: how a regular expression search proceeds. */
  function FirstMatch(at: nat -> Option<string>, p: nat, end: nat): Option<string>
    decreases end - p
  {
    if p >= end then None
    else if at(p).Some? then at(p)
    else FirstMatch(at, p + 1, end)
  }

  /** `fileContent.match(/= '([^']+)'/)`, failing with the script's error when nothing matches. */
  function ExtractBase64(text: string): Result<string, string> {
    match FirstMatch((q: nat) => LiteralAt(text, q), 0, |text|)
    case None => Failure(NoBase64)
    case Some(s) => Success(s)
  }

  /**
   * A match at `p` is exactly an occurrence there of `= '`, a non-empty quote-free literal and
   * a closing quote.
   */
  lemma LiteralAtSpec(text: string, p: nat, s: string)
    ensures LiteralAt(text, p) == Some(s) <==>
              s != [] && Quote !in s && p + |s| + 4 <= |text| && text[p..p + |s| + 4] == "= '" + s + [Quote]
  {
    var w := "= '" + s + [Quote];
    if s != [] && Quote !in s && p + |s| + 4 <= |text| && text[p..p + |s| + 4] == w {
      assert text[p..p + 3] == w[..3];
      forall k | p + 3 <= k < p + 3 + |s| ensures text[k] != Quote {
        assert text[k] == w[k - p] == s[k - p - 3];
      }
      assert text[p + 3 + |s|] == w[3 + |s|] == Quote;
      RunStopsAt(text, p + 3, |s|);
      forall k | 0 <= k < |s| ensures text[p + 3 + k] == s[k] {
        assert text[p + 3 + k] == w[3 + k];
      }
      assert text[p + 3..p + 3 + |s|] == s;
    }
    if LiteralAt(text, p) == Some(s) {
      var n := QuoteFreeRun(text, p + 3);
      assert s == text[p + 3..p + 3 + n];
      assert Quote !in s by {
        forall k | 0 <= k < |s| ensures s[k] != Quote {
          assert s[k] == text[p + 3 + k];
        }
      }
      assert text[p..p + |s| + 4] == text[p..p + 3] + s + [Quote];
    }
  }

  /** A run of `n` non-quote characters ended by a quote is the whole run. */
  lemma {:induction false} RunStopsAt(text: string, from: nat, n: nat)
    requires from + n < |text| && text[from + n] == Quote
    requires forall k :: from <= k < from + n ==> text[k] != Quote
    ensures QuoteFreeRun(text, from) == n
    decreases n
  {
    if n > 0 {
      RunStopsAt(text, from + 1, n - 1);
    }
  }

  /** The search skips positions where nothing matches. */
  lemma {:induction false} FirstMatchSkips(at: nat -> Option<string>, p: nat, t: nat, end: nat)
    requires p <= t
    requires forall q :: p <= q < t ==> at(q).None?
    ensures FirstMatch(at, p, end) == FirstMatch(at, t, end)
    decreases t - p
  {
    if p < t {
      FirstMatchSkips(at, p + 1, t, end);
    }
  }

  /** The search finds the leftmost match in `[p, end)`, and fails only when there is none. */
  lemma {:induction false} FirstMatchSpec(at: nat -> Option<string>, p: nat, end: nat)
    ensures FirstMatch(at, p, end).None? <==> forall q :: p <= q < end ==> at(q).None?
    ensures FirstMatch(at, p, end).Some? ==>
              exists q :: p <= q < end && at(q) == FirstMatch(at, p, end)
                          && forall r :: p <= r < q ==> at(r).None?
    decreases end - p
  {
    if p < end && at(p).None? {
      FirstMatchSpec(at, p + 1, end);
    }
  }

  /** No match starts where fewer than three characters are left. */
  lemma NoLiteralPastEnd(text: string, q: nat)
    requires |text| <= q
    ensures LiteralAt(text, q).None?
  {
  }

  /**
   * The extracted literal is the first one written as `= '...'` with a non-empty quote-free
   * body; the script fails exactly when the text holds no such literal.
   */
  lemma ExtractBase64Spec(text: string)
    ensures ExtractBase64(text).Failure? <==> forall q :: LiteralAt(text, q).None?
    ensures ExtractBase64(text).Failure? ==> ExtractBase64(text).error == NoBase64
    ensures ExtractBase64(text).Success? ==>
              exists q :: LiteralAt(text, q) == Some(ExtractBase64(text).value)
                          && forall r :: r < q ==> LiteralAt(text, r).None?
  {
    var at := (q: nat) => LiteralAt(text, q);
    FirstMatchSpec(at, 0, |text|);
    forall q: nat ensures at(q) == LiteralAt(text, q) { }
    if ExtractBase64(text).Failure? {
      forall q: nat ensures LiteralAt(text, q).None? {
        if |text| <= q {
          NoLiteralPastEnd(text, q);
        } else {
          assert at(q).None?;
        }
      }
    } else {
      var q :| 0 <= q < |text| && at(q) == FirstMatch(at, 0, |text|) && forall r :: 0 <= r < q ==> at(r).None?;
      assert LiteralAt(text, q) == Some(ExtractBase64(text).value);
    }
  }

  /**
   * Writing a literal after a text without quotes and extracting it gives the literal back,
   * whatever follows it.
   */
  lemma ExtractRoundTrip(prefix: string, s: string, suffix: string)
    requires Quote !in prefix && s != [] && Quote !in s
    ensures ExtractBase64(prefix + "= '" + s + [Quote] + suffix) == Success(s)
  {
    var text := prefix + "= '" + s + [Quote] + suffix;
    var p := |prefix|;
    assert text[p..p + |s| + 4] == "= '" + s + [Quote];
    LiteralAtSpec(text, p, s);
    forall q: nat | q < p ensures LiteralAt(text, q).None? {
      NoLiteralInPrefix(prefix, s + [Quote] + suffix, q);
      assert text == prefix + "= '" + (s + [Quote] + suffix);
    }
    var at := (q: nat) => LiteralAt(text, q);
    FirstMatchSkips(at, 0, p, |text|);
    assert at(p) == Some(s);
  }

  /** No match starts inside a quote-free text followed by `= '`: its third character is no quote. */
  lemma NoLiteralInPrefix(prefix: string, rest: string, q: nat)
    requires Quote !in prefix && q < |prefix|
    ensures LiteralAt(prefix + "= '" + rest, q).None?
  {
    var text := prefix + "= '" + rest;
    if q + 3 <= |text| {
      if q + 2 < |prefix| {
        assert text[q + 2] == prefix[q + 2];
      } else if q + 2 == |prefix| {
        assert text[q + 2] == '=';
      } else {
        assert text[q + 2] == ' ';
      }
      assert text[q..q + 3][2] != Quote;
    }
  }

  /** A text without a single quote has no literal, and the migration stops with its error. */
  lemma NoQuoteNoLiteral(text: string)
    requires Quote !in text
    ensures ExtractBase64(text) == Failure(NoBase64)
  {
    forall q: nat ensures LiteralAt(text, q).None? {
      if q + 3 <= |text| {
        assert text[q..q + 3][2] == text[q + 2];
        assert text[q + 2] in text;
      }
    }
    ExtractBase64Spec(text);
  }

  // ---------------------------------------------------------------------------------------
  // Filtering

  /** `cities.filter(...)`: the records with all required fields, in order. */
  function Valid(cities: seq<RawCity>): seq<RawCity>
    decreases |cities|
  {
    if cities == [] then []
    else
      var last := cities[|cities| - 1];
      Valid(cities[..|cities| - 1]) + (if Required(last) then [last] else [])
  }

  /** The number of records without both coordinates. */
  function MissingCount(cities: seq<RawCity>): nat
    decreases |cities|
  {
    if cities == [] then 0
    else MissingCount(cities[..|cities| - 1]) + (if MissingCoords(cities[|cities| - 1]) then 1 else 0)
  }

  /** The kept records are exactly the input's records with all required fields. */
  lemma {:induction false} ValidMembers(cities: seq<RawCity>, c: RawCity)
    ensures c in Valid(cities) <==> c in cities && Required(c)
    decreases |cities|
  {
    if cities != [] {
      var p := cities[..|cities| - 1];
      ValidMembers(p, c);
      assert cities == p + [cities[|cities| - 1]];
    }
  }

  /** Filtering commutes with concatenation: the kept records keep their relative order. */
  lemma {:induction false} ValidConcat(a: seq<RawCity>, b: seq<RawCity>)
    ensures Valid(a + b) == Valid(a) + Valid(b)
    decreases |b|
  {
    if b == [] {
      assert a + b == a;
    } else {
      assert (a + b)[..|a + b| - 1] == a + b[..|b| - 1];
      ValidConcat(a, b[..|b| - 1]);
    }
  }

  /** At most every record lacks coordinates, and none does exactly when all have both. */
  lemma {:induction false} MissingCountSpec(cities: seq<RawCity>)
    ensures MissingCount(cities) <= |cities|
    ensures MissingCount(cities) == 0 <==> forall i :: 0 <= i < |cities| ==> !MissingCoords(cities[i])
    decreases |cities|
  {
    if cities != [] {
      var p := cities[..|cities| - 1];
      MissingCountSpec(p);
      assert forall i :: 0 <= i < |p| ==> p[i] == cities[i];
    }
  }

  /**
   * The filter callback with its two counters: the valid records in order, the number
   * skipped, and the number of valid records without coordinates.
   */
  method FilterValid(cities: seq<RawCity>) returns (valid: seq<RawCity>, skipped: nat, missing: nat)
    ensures valid == Valid(cities)
    ensures skipped + |valid| == |cities|
    ensures missing == MissingCount(valid)
    ensures forall c :: c in valid ==> Required(c)
  {
    valid, skipped, missing := [], 0, 0;
    for k := 0 to |cities|
      invariant valid == Valid(cities[..k])
      invariant skipped + |valid| == k
      invariant missing == MissingCount(valid)
    {
      assert cities[..k + 1][..k] == cities[..k];
      var city := cities[k];
      if !Required(city) {
        skipped := skipped + 1;
        continue;
      }
      if MissingCoords(city) {
        missing := missing + 1;
      }
      assert (valid + [city])[..|valid|] == valid;
      valid := valid + [city];
    }
    assert cities[..|cities|] == cities;
    forall c | c in valid ensures Required(c) {
      ValidMembers(cities, c);
    }
  }

  // ---------------------------------------------------------------------------------------
  // Transforming

  /** The coordinate as stored: the value when there is one, else 0. */
  function Coordinate(x: Option<real>): real {
    if x.Some? then x.value else 0.0
  }

  /** A string field's value; only ever taken of a valid record's required fields, which are present. */
  function Field(f: Option<string>): string {
    if f.Some? then f.value else ""
  }

  /** `batch.map(city => ({...}))` on one valid record; `stateId || undefined` drops "". */
  function ToDocument(c: RawCity): (d: Document)
  {
    Document(Field(c.id), Field(c.name), Field(c.displayName), Field(c.country), c.countryCode,
             if Truthy(c.stateId) then c.stateId else None,
             Coordinate(c.latitude), Coordinate(c.longitude), Field(c.firstLetter), Field(c.lastLetter))
  }

  /** The record a document is read back as. */
  function FromDocument(d: Document): RawCity {
    RawCity(Some(d.id), Some(d.name), Some(d.displayName), Some(d.country), d.countryCode, d.stateId,
            Some(d.latitude), Some(d.longitude), Some(d.firstLetter), Some(d.lastLetter))
  }

  /**
   * The transform loses nothing from a record that has both coordinates and no empty state id:
   * reading its document back gives the record. Otherwise the missing coordinates become 0.
   */
  lemma ToDocumentRoundTrip(c: RawCity)
    requires Required(c)
    ensures !MissingCoords(c) && c.stateId != Some([]) ==> FromDocument(ToDocument(c)) == c
    ensures c.latitude.None? ==> ToDocument(c).latitude == 0.0
    ensures c.longitude.None? ==> ToDocument(c).longitude == 0.0
  {
  }

  /** A document with non-empty required fields and state id survives the trip to a record and back. */
  lemma FromDocumentRoundTrip(d: Document)
    requires d.id != [] && d.name != [] && d.displayName != [] && d.country != []
    requires d.firstLetter != [] && d.lastLetter != [] && d.stateId != Some([])
    ensures Required(FromDocument(d)) && ToDocument(FromDocument(d)) == d
  {
  }

  /** The documents of a batch of valid records. */
  function Documents(batch: seq<RawCity>): (ds: seq<Document>)
    ensures |ds| == |batch|
  {
    seq(|batch|, k requires 0 <= k < |batch| => ToDocument(batch[k]))
  }

  // ---------------------------------------------------------------------------------------
  // Inserting

  const BatchSize: nat := 1000

  /**
   * Whether the `k`-th valid record is counted as inserted: `batchOk(i)` is the outcome of `insertMany`
   * for the batch starting at `i`, `recordOk(k)` that of `create` for record `k` on its own.
   */
  predicate Kept(k: nat, batchOk: nat -> bool, recordOk: nat -> bool) {
    batchOk(k - k % BatchSize) || recordOk(k)
  }

  /** The documents counted as inserted for the first `n` valid records, in order. */
  function Stored(valid: seq<RawCity>, n: nat, batchOk: nat -> bool, recordOk: nat -> bool): seq<Document>
    requires n <= |valid|
  {
    if n == 0 then []
    else Stored(valid, n - 1, batchOk, recordOk)
         + (if Kept(n - 1, batchOk, recordOk) then [ToDocument(valid[n - 1])] else [])
  }

  /** Record `i + j` of a batch starting at `i` belongs to that batch. */
  lemma BatchStartOf(i: nat, j: nat)
    requires i % BatchSize == 0 && j < BatchSize
    ensures (i + j) - (i + j) % BatchSize == i
  {
  }

  /** When every batch is accepted, every valid record is counted as inserted, in order. */
  lemma {:induction false} StoredAll(valid: seq<RawCity>, n: nat, batchOk: nat -> bool, recordOk: nat -> bool)
    requires n <= |valid|
    requires forall i :: batchOk(i)
    ensures Stored(valid, n, batchOk, recordOk) == Documents(valid[..n])
    decreases n
  {
    if n > 0 {
      StoredAll(valid, n - 1, batchOk, recordOk);
      assert Documents(valid[..n]) == Documents(valid[..n - 1]) + [ToDocument(valid[n - 1])];
    }
  }

  /** Every counted document is the document of a valid record, and there are at most as many. */
  lemma {:induction false} StoredFromValid(valid: seq<RawCity>, n: nat, batchOk: nat -> bool, recordOk: nat -> bool)
    requires n <= |valid|
    ensures |Stored(valid, n, batchOk, recordOk)| <= n
    ensures forall d :: d in Stored(valid, n, batchOk, recordOk) ==> exists k :: 0 <= k < n && d == ToDocument(valid[k])
    decreases n
  {
    if n > 0 {
      StoredFromValid(valid, n - 1, batchOk, recordOk);
    }
  }

  /** How many records the loop has gone through once `i` has reached its value. */
  function Done(i: nat, n: nat): (d: nat)
    ensures d <= n && d <= i && (d == i || d == n)
  {
    if i <= n then i else n
  }

  /** The slice of the `j`-th batch: `validCities.slice(j * 1000, j * 1000 + 1000)`. */
  function BatchSlice(valid: seq<RawCity>, j: nat): seq<RawCity>
    requires j * BatchSize < |valid|
  {
    valid[j * BatchSize..if j * BatchSize + BatchSize <= |valid| then j * BatchSize + BatchSize else |valid|]
  }

  /** `batches` are the first `|batches|` slices of `valid`. */
  ghost predicate Sliced(valid: seq<RawCity>, batches: seq<seq<RawCity>>) {
    forall j :: 0 <= j < |batches| ==> j * BatchSize < |valid| && batches[j] == BatchSlice(valid, j)
  }

  /** The next slice extends the batches. */
  lemma SlicedSnoc(valid: seq<RawCity>, batches: seq<seq<RawCity>>, batch: seq<RawCity>)
    requires Sliced(valid, batches) && |batches| * BatchSize < |valid|
    requires batch == BatchSlice(valid, |batches|)
    ensures Sliced(valid, batches + [batch])
  {
  }

  /**
   * The documents an ordered `insertMany` has written when it stops at an error (a duplicate
   * `id`, say): `partial(i)` is how many leading documents of the refused batch starting at
   * record `i` got in. The script counts none of them. An accepted batch leaves nothing
   * uncounted.
   */
  function Leftover(valid: seq<RawCity>, i: nat, batchOk: nat -> bool, partial: nat -> nat): (ds: seq<Document>)
    ensures batchOk(i) || i >= |valid| ==> ds == []
    ensures i < |valid| ==> |ds| <= Done(i + BatchSize, |valid|) - i
    ensures i < |valid| && !batchOk(i) ==>
              |ds| == if i + partial(i) <= Done(i + BatchSize, |valid|) then partial(i) else Done(i + BatchSize, |valid|) - i
    ensures forall k :: 0 <= k < |ds| ==> ds[k] == ToDocument(valid[i + k])
  {
    if batchOk(i) || i >= |valid| then []
    else
      var hi := Done(i + BatchSize, |valid|);
      Documents(valid[i..if i + partial(i) <= hi then i + partial(i) else hi])
  }

  /** The documents counted for the valid records `i..hi`, in order. */
  function CountedIn(valid: seq<RawCity>, i: nat, hi: nat, batchOk: nat -> bool, recordOk: nat -> bool): seq<Document>
    requires i <= hi <= |valid|
    decreases hi - i
  {
    if hi == i then []
    else CountedIn(valid, i, hi - 1, batchOk, recordOk)
         + (if Kept(hi - 1, batchOk, recordOk) then [ToDocument(valid[hi - 1])] else [])
  }

  /** The documents counted for the batch starting at record `i`. */
  function Counted(valid: seq<RawCity>, i: nat, batchOk: nat -> bool, recordOk: nat -> bool): seq<Document> {
    if i >= |valid| then [] else CountedIn(valid, i, Done(i + BatchSize, |valid|), batchOk, recordOk)
  }

  /** Everything the batch starting at record `i` writes: a refused `insertMany`'s leading documents, then the counted ones. */
  function Written(valid: seq<RawCity>, i: nat, batchOk: nat -> bool, recordOk: nat -> bool, partial: nat -> nat)
    : seq<Document>
  {
    Leftover(valid, i, batchOk, partial) + Counted(valid, i, batchOk, recordOk)
  }

  function LeftoverOf(valid: seq<RawCity>, batchOk: nat -> bool, partial: nat -> nat): nat -> seq<Document> {
    (i: nat) => Leftover(valid, i, batchOk, partial)
  }

  function CountedOf(valid: seq<RawCity>, batchOk: nat -> bool, recordOk: nat -> bool): nat -> seq<Document> {
    (i: nat) => Counted(valid, i, batchOk, recordOk)
  }

  function WrittenOf(valid: seq<RawCity>, batchOk: nat -> bool, recordOk: nat -> bool, partial: nat -> nat)
    : nat -> seq<Document>
  {
    (i: nat) => Written(valid, i, batchOk, recordOk, partial)
  }

  /** `f(i) + f(i + 1000) + …`, over the batch starts from `i` up to `n`. */
  function Chunks<T>(n: nat, i: nat, f: nat -> seq<T>): seq<T>
    decreases n - i
  {
    if i >= n then [] else f(i) + Chunks(n, i + BatchSize, f)
  }

  /** When every batch's part is the concatenation of two parts, the chunks split likewise, in length and in members. */
  lemma {:induction false} ChunksSplit<T>(n: nat, i: nat, f: nat -> seq<T>, g: nat -> seq<T>, h: nat -> seq<T>)
    requires forall j :: i <= j < n ==> h(j) == f(j) + g(j)
    ensures |Chunks(n, i, h)| == |Chunks(n, i, f)| + |Chunks(n, i, g)|
    ensures forall x :: x in Chunks(n, i, h) <==> x in Chunks(n, i, f) || x in Chunks(n, i, g)
    decreases n - i
  {
    if i < n {
      ChunksSplit(n, i + BatchSize, f, g, h);
    }
  }

  /** Chunks of parts that agree are equal. */
  lemma {:induction false} ChunksSame<T>(n: nat, i: nat, f: nat -> seq<T>, g: nat -> seq<T>)
    requires forall j :: i <= j < n ==> f(j) == g(j)
    ensures Chunks(n, i, f) == Chunks(n, i, g)
    decreases n - i
  {
    if i < n {
      ChunksSame(n, i + BatchSize, f, g);
    }
  }

  /** Chunks of empty parts are empty. */
  lemma {:induction false} ChunksEmpty<T>(n: nat, i: nat, f: nat -> seq<T>)
    requires forall j :: i <= j < n ==> f(j) == []
    ensures Chunks(n, i, f) == []
    decreases n - i
  {
    if i < n {
      ChunksEmpty(n, i + BatchSize, f);
    }
  }

  /** Chunks of parts no longer than their batch are no longer than the records they cover. */
  lemma {:induction false} ChunksBound<T>(n: nat, i: nat, f: nat -> seq<T>)
    requires forall j :: i <= j < n ==> |f(j)| <= Done(j + BatchSize, n) - j
    ensures |Chunks(n, i, f)| <= if i <= n then n - i else 0
    decreases n - i
  {
    if i < n {
      ChunksBound(n, i + BatchSize, f);
    }
  }

  /** The uncounted documents that the batches from record `i` on leave in the collection. */
  function LeftoverFrom(valid: seq<RawCity>, i: nat, batchOk: nat -> bool, partial: nat -> nat): seq<Document> {
    Chunks(|valid|, i, LeftoverOf(valid, batchOk, partial))
  }

  /**
   * What the batches from record `i` on put into the collection, in order: for each batch, the
   * documents a refused `insertMany` wrote, then the documents counted for it.
   */
  function CollectionFrom(valid: seq<RawCity>, i: nat, batchOk: nat -> bool, recordOk: nat -> bool, partial: nat -> nat)
    : seq<Document>
  {
    Chunks(|valid|, i, WrittenOf(valid, batchOk, recordOk, partial))
  }

  /** The counted documents of the first `hi` records are those of the first `i` followed by those of `i..hi`. */
  lemma {:induction false} StoredSplit(valid: seq<RawCity>, i: nat, hi: nat, batchOk: nat -> bool, recordOk: nat -> bool)
    requires i <= hi <= |valid|
    ensures Stored(valid, hi, batchOk, recordOk) == Stored(valid, i, batchOk, recordOk) + CountedIn(valid, i, hi, batchOk, recordOk)
    decreases hi - i
  {
    if hi > i {
      StoredSplit(valid, i, hi - 1, batchOk, recordOk);
    }
  }

  /** Counting over `i..hi` is counting over `i..m` and then over `m..hi`. */
  lemma {:induction false} CountedConcat(valid: seq<RawCity>, i: nat, m: nat, hi: nat, batchOk: nat -> bool, recordOk: nat -> bool)
    requires i <= m <= hi <= |valid|
    ensures CountedIn(valid, i, hi, batchOk, recordOk)
            == CountedIn(valid, i, m, batchOk, recordOk) + CountedIn(valid, m, hi, batchOk, recordOk)
    decreases hi - m
  {
    if hi > m {
      CountedConcat(valid, i, m, hi - 1, batchOk, recordOk);
    }
  }

  /** The batches from record `i` on count, together, the documents counted for `i..|valid|`. */
  lemma {:induction false} CountedChunks(valid: seq<RawCity>, i: nat, batchOk: nat -> bool, recordOk: nat -> bool)
    requires i <= |valid|
    ensures Chunks(|valid|, i, CountedOf(valid, batchOk, recordOk)) == CountedIn(valid, i, |valid|, batchOk, recordOk)
    decreases |valid| - i
  {
    if i < |valid| {
      var hi := Done(i + BatchSize, |valid|);
      CountedConcat(valid, i, hi, |valid|, batchOk, recordOk);
      if hi < |valid| {
        CountedChunks(valid, i + BatchSize, batchOk, recordOk);
      } else {
        assert CountedIn(valid, hi, |valid|, batchOk, recordOk) == [];
      }
    }
  }

  /** A batch that `insertMany` accepts counts all its documents, in order. */
  lemma {:induction false} StoredBatch(valid: seq<RawCity>, i: nat, len: nat, batchOk: nat -> bool, recordOk: nat -> bool)
    requires i % BatchSize == 0 && len <= BatchSize && i + len <= |valid| && batchOk(i)
    ensures CountedIn(valid, i, i + len, batchOk, recordOk) == Documents(valid[i..i + len])
    decreases len
  {
    if len > 0 {
      StoredBatch(valid, i, len - 1, batchOk, recordOk);
      BatchStartOf(i, len - 1);
      assert Documents(valid[i..i + len]) == Documents(valid[i..i + len - 1]) + [ToDocument(valid[i + len - 1])];
    }
  }

  /** Writing one more batch moves its part of the collection from what is to come to what is written. */
  lemma CollectionStep(valid: seq<RawCity>, i: nat, batchOk: nat -> bool, recordOk: nat -> bool,
                       partial: nat -> nat, collection: seq<Document>, written: seq<Document>)
    requires i < |valid| && written == Written(valid, i, batchOk, recordOk, partial)
    ensures collection + CollectionFrom(valid, i, batchOk, recordOk, partial)
            == (collection + written) + CollectionFrom(valid, i + BatchSize, batchOk, recordOk, partial)
  {
  }

  /** Each batch writes its uncounted documents and then its counted ones. */
  lemma WrittenSplits(valid: seq<RawCity>, batchOk: nat -> bool, recordOk: nat -> bool, partial: nat -> nat)
    ensures forall j :: WrittenOf(valid, batchOk, recordOk, partial)(j)
                        == LeftoverOf(valid, batchOk, partial)(j) + CountedOf(valid, batchOk, recordOk)(j)
  {
  }

  /** The collection holds as many documents as are counted and left over together. */
  lemma CollectionSize(valid: seq<RawCity>, i: nat, batchOk: nat -> bool, recordOk: nat -> bool, partial: nat -> nat)
    requires i <= |valid|
    ensures |CollectionFrom(valid, i, batchOk, recordOk, partial)|
            == |LeftoverFrom(valid, i, batchOk, partial)| + |CountedIn(valid, i, |valid|, batchOk, recordOk)|
  {
    WrittenSplits(valid, batchOk, recordOk, partial);
    ChunksSplit(|valid|, i, LeftoverOf(valid, batchOk, partial), CountedOf(valid, batchOk, recordOk),
                WrittenOf(valid, batchOk, recordOk, partial));
    CountedChunks(valid, i, batchOk, recordOk);
  }

  /** A document is in the collection exactly when it is counted or left over. */
  lemma CollectionMembers(valid: seq<RawCity>, i: nat, batchOk: nat -> bool, recordOk: nat -> bool, partial: nat -> nat)
    requires i <= |valid|
    ensures forall d :: d in CollectionFrom(valid, i, batchOk, recordOk, partial)
                        <==> d in LeftoverFrom(valid, i, batchOk, partial) || d in CountedIn(valid, i, |valid|, batchOk, recordOk)
  {
    WrittenSplits(valid, batchOk, recordOk, partial);
    ChunksSplit(|valid|, i, LeftoverOf(valid, batchOk, partial), CountedOf(valid, batchOk, recordOk),
                WrittenOf(valid, batchOk, recordOk, partial));
    CountedChunks(valid, i, batchOk, recordOk);
  }

  /**
   * When no refused batch got a document in, the collection holds exactly the counted
   * documents, in order.
   */
  lemma CollectionIsCounted(valid: seq<RawCity>, i: nat, batchOk: nat -> bool, recordOk: nat -> bool, partial: nat -> nat)
    requires i <= |valid|
    requires forall j :: batchOk(j) || partial(j) == 0
    ensures CollectionFrom(valid, i, batchOk, recordOk, partial) == CountedIn(valid, i, |valid|, batchOk, recordOk)
  {
    forall j | i <= j < |valid|
      ensures WrittenOf(valid, batchOk, recordOk, partial)(j) == CountedOf(valid, batchOk, recordOk)(j)
    {
      assert Leftover(valid, j, batchOk, partial) == [];
    }
    ChunksSame(|valid|, i, WrittenOf(valid, batchOk, recordOk, partial), CountedOf(valid, batchOk, recordOk));
    CountedChunks(valid, i, batchOk, recordOk);
  }

  /**
   * A refused batch whose `insertMany` got its first document in leaves that document in the
   * collection whether or not the one-by-one `create` of it succeeds: for example a batch with
   * two records sharing an `id`, where the second insert and both retries fail on the key.
   */
  lemma RefusedBatchKeepsPrefix(valid: seq<RawCity>, i: nat, batchOk: nat -> bool, recordOk: nat -> bool,
                                partial: nat -> nat)
    requires i < |valid| && !batchOk(i) && partial(i) >= 1
    ensures ToDocument(valid[i]) in CollectionFrom(valid, i, batchOk, recordOk, partial)
    ensures ToDocument(valid[i]) in LeftoverFrom(valid, i, batchOk, partial)
  {
    var l := Leftover(valid, i, batchOk, partial);
    assert l[0] == ToDocument(valid[i]);
    assert Written(valid, i, batchOk, recordOk, partial)[0] == ToDocument(valid[i]);
  }

  /**
   * When no refused batch got any document in, nothing is left uncounted, so the collection
   * holds exactly the documents the script counts as inserted.
   */
  lemma LeftoverEmpty(valid: seq<RawCity>, i: nat, batchOk: nat -> bool, partial: nat -> nat)
    requires forall j :: batchOk(j) || partial(j) == 0
    ensures LeftoverFrom(valid, i, batchOk, partial) == []
  {
    forall j | i <= j < |valid| ensures LeftoverOf(valid, batchOk, partial)(j) == [] {
      assert Leftover(valid, j, batchOk, partial) == [];
    }
    ChunksEmpty(|valid|, i, LeftoverOf(valid, batchOk, partial));
  }

  /** Every uncounted document is the document of a valid record from `i` on, and there are no more of them than records. */
  lemma {:induction false} LeftoverFromValid(valid: seq<RawCity>, i: nat, batchOk: nat -> bool, partial: nat -> nat)
    ensures |LeftoverFrom(valid, i, batchOk, partial)| <= if i <= |valid| then |valid| - i else 0
    ensures forall d :: d in LeftoverFrom(valid, i, batchOk, partial) ==> exists k :: i <= k < |valid| && d == ToDocument(valid[k])
    decreases |valid| - i
  {
    ChunksBound(|valid|, i, LeftoverOf(valid, batchOk, partial));
    if i < |valid| {
      LeftoverFromValid(valid, i + BatchSize, batchOk, partial);
      var l := Leftover(valid, i, batchOk, partial);
      assert LeftoverFrom(valid, i, batchOk, partial) == l + LeftoverFrom(valid, i + BatchSize, batchOk, partial);
      forall d | d in l ensures exists k :: i <= k < |valid| && d == ToDocument(valid[k]) {
        var j :| 0 <= j < |l| && l[j] == d;
        assert d == ToDocument(valid[i + j]);
      }
    }
  }

  /**
   * The batch loop with `insertedCount` and the per-record recovery: the documents counted are
   * those of the kept records, every valid record is counted as inserted or as failed, and the
   * collection holds, batch by batch, the uncounted documents a refused `insertMany` left
   * behind and the counted ones.
   */
  method InsertBatches(valid: seq<RawCity>, batchOk: nat -> bool, recordOk: nat -> bool, partial: nat -> nat)
    returns (stored: seq<Document>, collection: seq<Document>, inserted: nat, failed: nat)
    requires forall c :: c in valid ==> Required(c)
    ensures stored == Stored(valid, |valid|, batchOk, recordOk)
    ensures inserted == |stored| && inserted + failed == |valid|
    ensures collection == CollectionFrom(valid, 0, batchOk, recordOk, partial)
  {
    var i;
    i, stored, collection, inserted, failed := BatchLoop(valid, batchOk, recordOk, partial);
    assert Done(i, |valid|) == |valid| && CollectionFrom(valid, i, batchOk, recordOk, partial) == [];
  }

  /**
   * The loop state after the batches before record `i`: the counted documents, the two
   * counters, and the collection so far, which the batches from `i` on complete.
   */
  ghost predicate Progress(valid: seq<RawCity>, i: nat, batchOk: nat -> bool, recordOk: nat -> bool, partial: nat -> nat,
                           stored: seq<Document>, collection: seq<Document>, inserted: nat, failed: nat)
  {
    && i % BatchSize == 0
    && stored == Stored(valid, Done(i, |valid|), batchOk, recordOk)
    && inserted == |stored| && inserted + failed == Done(i, |valid|)
    && collection + CollectionFrom(valid, i, batchOk, recordOk, partial) == CollectionFrom(valid, 0, batchOk, recordOk, partial)
  }

  /** The `for` loop over the batch starts, up to the first start past the last record. */
  method BatchLoop(valid: seq<RawCity>, batchOk: nat -> bool, recordOk: nat -> bool, partial: nat -> nat)
    returns (i: nat, stored: seq<Document>, collection: seq<Document>, inserted: nat, failed: nat)
    ensures |valid| <= i
    ensures stored == Stored(valid, Done(i, |valid|), batchOk, recordOk)
    ensures inserted == |stored| && inserted + failed == Done(i, |valid|)
    ensures collection + CollectionFrom(valid, i, batchOk, recordOk, partial) == CollectionFrom(valid, 0, batchOk, recordOk, partial)
  {
    stored, collection, inserted, failed := [], [], 0, 0;
    i := 0;
    assert [] + CollectionFrom(valid, 0, batchOk, recordOk, partial) == CollectionFrom(valid, 0, batchOk, recordOk, partial);
    while i < |valid|
      invariant Progress(valid, i, batchOk, recordOk, partial, stored, collection, inserted, failed)
    {
      stored, collection, inserted, failed :=
        NextBatch(valid, i, batchOk, recordOk, partial, stored, collection, inserted, failed);
      i := i + BatchSize;
    }
  }

  /** One turn of the batch loop, with the running counters and the collection so far. */
  method NextBatch(valid: seq<RawCity>, i: nat, batchOk: nat -> bool, recordOk: nat -> bool, partial: nat -> nat,
                   stored: seq<Document>, collection: seq<Document>, inserted: nat, failed: nat)
    returns (stored': seq<Document>, collection': seq<Document>, inserted': nat, failed': nat)
    requires i < |valid| && Progress(valid, i, batchOk, recordOk, partial, stored, collection, inserted, failed)
    ensures Progress(valid, i + BatchSize, batchOk, recordOk, partial, stored', collection', inserted', failed')
  {
    var added, written, ok, bad := StoreBatch(valid, i, batchOk, recordOk, partial);
    StoredSplit(valid, i, Done(i + BatchSize, |valid|), batchOk, recordOk);
    CollectionStep(valid, i, batchOk, recordOk, partial, collection, written);
    NextBatchStart(i);
    stored', collection', inserted', failed' := stored + added, collection + written, inserted + ok, failed + bad;
  }

  /** The next batch starts on a multiple of the batch size too. */
  lemma NextBatchStart(i: nat)
    requires i % BatchSize == 0
    ensures (i + BatchSize) % BatchSize == 0
  {
  }

  /**
   * One turn of the batch loop, on the batch starting at record `i`: `insertMany` stores the
   * whole batch, or, when it is refused, each record is created on its own and counted as
   * inserted or as failed. `written` is everything the turn puts into the collection: the
   * refused batch's uncounted leading documents, then the ones created one by one.
   */
  method StoreBatch(valid: seq<RawCity>, i: nat, batchOk: nat -> bool, recordOk: nat -> bool, partial: nat -> nat)
    returns (added: seq<Document>, written: seq<Document>, ok: nat, bad: nat)
    requires i % BatchSize == 0 && i < |valid|
    ensures added == CountedIn(valid, i, Done(i + BatchSize, |valid|), batchOk, recordOk)
    ensures written == Written(valid, i, batchOk, recordOk, partial)
    ensures ok == |added| && ok + bad == Done(i + BatchSize, |valid|) - i
  {
    var hi := Done(i + BatchSize, |valid|);
    if batchOk(i) {
      StoredBatch(valid, i, hi - i, batchOk, recordOk);
      added := Documents(valid[i..hi]);
      return added, added, hi - i, 0;
    }
    added, ok, bad := [], 0, 0;
    for k := i to hi
      invariant added == CountedIn(valid, i, k, batchOk, recordOk)
      invariant ok == |added| && ok + bad == k - i
    {
      BatchStartOf(i, k - i);
      if recordOk(k) {
        added := added + [ToDocument(valid[k])];
        ok := ok + 1;
      } else {
        bad := bad + 1;
      }
    }
    written := Leftover(valid, i, batchOk, partial) + added;
  }

  /**
   * The batches are non-empty, hold at most 1000 records, all but the last exactly 1000, and
   * together give back the valid records in order.
   */
  lemma {:induction false} BatchesPartition(valid: seq<RawCity>, batches: seq<seq<RawCity>>)
    requires Sliced(valid, batches) && |valid| <= |batches| * BatchSize
    ensures Seqs.Flatten((b: seq<RawCity>) => b, batches) == valid
    ensures forall j :: 0 <= j < |batches| ==> 0 < |batches[j]| <= BatchSize
    ensures forall j :: 0 <= j < |batches| - 1 ==> |batches[j]| == BatchSize
  {
    var n := |batches|;
    BatchesPrefix(valid, batches, n);
    assert n * BatchSize >= |valid|;
    assert batches[..n] == batches;
    assert valid[..|valid|] == valid;
    forall j | 0 <= j < n - 1 ensures |batches[j]| == BatchSize {
      assert (n - 1) * BatchSize < |valid|;
      assert (j + 1) * BatchSize <= (n - 1) * BatchSize;
    }
  }

  /** The first `m` batches give back the records before the `m`-th batch. */
  lemma {:induction false} BatchesPrefix(valid: seq<RawCity>, batches: seq<seq<RawCity>>, m: nat)
    requires Sliced(valid, batches) && m <= |batches|
    ensures Seqs.Flatten((b: seq<RawCity>) => b, batches[..m])
            == valid[..if m * BatchSize <= |valid| then m * BatchSize else |valid|]
    decreases m
  {
    if m > 0 {
      BatchesPrefix(valid, batches, m - 1);
      assert batches[..m][..m - 1] == batches[..m - 1];
      var lo := (m - 1) * BatchSize;
      var hi := if m * BatchSize <= |valid| then m * BatchSize else |valid|;
      assert valid[..hi] == valid[..lo] + valid[lo..hi];
    }
  }

  /**
   * What the script reports: the documents it counts as inserted (`stored`), the documents the
   * emptied collection holds afterwards (`collection`) and the counters.
   */
  datatype Report = Report(stored: seq<Document>, collection: seq<Document>, inserted: nat, skipped: nat,
                           missingCoords: nat)

  /**
   * `migrateCities()` from the read file text on: `decode` stands for the base64 decoding and
   * `JSON.parse` of the literal (a failure is the thrown error). The collection is emptied
   * before the batches are inserted, so afterwards it holds the counted documents and those a
   * refused `insertMany` wrote before its error.
   */
  method MigrateCities(fileContent: string, decode: string -> Result<seq<RawCity>, string>,
                       batchOk: nat -> bool, recordOk: nat -> bool, partial: nat -> nat)
    returns (r: Result<Report, string>)
    ensures ExtractBase64(fileContent).Failure? ==> r == Failure(NoBase64)
    ensures r.Success? <==> ExtractBase64(fileContent).Success? && decode(ExtractBase64(fileContent).value).Success?
    ensures r.Success? ==>
              var cities := decode(ExtractBase64(fileContent).value).value;
              var valid := Valid(cities);
              && (forall c :: c in valid ==> Required(c))
              && r.value.stored == Stored(valid, |valid|, batchOk, recordOk)
              && r.value.inserted == |r.value.stored|
              && r.value.collection == CollectionFrom(valid, 0, batchOk, recordOk, partial)
              && r.value.inserted + r.value.skipped == |cities|
              && r.value.missingCoords == MissingCount(valid)
  {
    var literal := ExtractBase64(fileContent);
    if literal.Failure? {
      return Failure(literal.error);
    }
    var decoded := decode(literal.value);
    if decoded.Failure? {
      return Failure(decoded.error);
    }
    var cities := decoded.value;
    var valid, skipped, missing := FilterValid(cities);
    var stored, collection, inserted, failed := InsertBatches(valid, batchOk, recordOk, partial);
    return Success(Report(stored, collection, inserted, skipped + failed, missing));
  }
}
