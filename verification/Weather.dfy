/**
 * The `/weather` and `/cities` endpoints: classification of the optional
 * `city` query parameter against the catalog, and the replies built from it.
 */
module Weather {
  import opened Wrappers
  import opened Text
  import opened Catalog

  /** The three outcomes of a `/weather` request. */
  datatype Outcome =
    | MissingCity
    | NotFound(query: string, availableCities: seq<string>)
    | Found(data: WeatherRecord)

  /** A JSON reply body. `Failure` carries `status: "error"`; the other two
      carry `status: "success"`. */
  datatype Body =
    | Failure(error: string, availableCities: Option<seq<string>>)
    | Success(data: WeatherRecord, timestamp: string)
    | CityList(cities: seq<string>, timestamp: string)
  {
    function Status(): string {
      if Failure? then "error" else "success"
    }
  }

  /** An HTTP status code with its JSON body. */
  datatype Reply = Reply(code: int, body: Body)

  const MissingCityMessage: string := "Le param\U{e8}tre city est requis"
  const NotFoundPrefix: string := "Donn\U{e9}es m\U{e9}t\U{e9}o pour "
  const NotFoundMarker: string := "non trouv\U{e9}es"

  /** The 404 error message: it names the lowercased query and says that no
      data was found. */
  function NotFoundMessage(query: string): (m: string)
    ensures Contains(m, query)
    ensures Contains(m, NotFoundMarker)
    ensures OccursAt(m, NotFoundPrefix, 0)
    ensures OccursAt(m, query, |NotFoundPrefix|)
    ensures OccursAt(m, " " + NotFoundMarker, |NotFoundPrefix| + |query|)
    ensures |m| == |NotFoundPrefix| + |query| + 1 + |NotFoundMarker|
  {
    var m := NotFoundPrefix + query + " " + NotFoundMarker;
    assert m[|NotFoundPrefix|..|NotFoundPrefix| + |query|] == query;
    assert m[|m| - |NotFoundMarker|..] == NotFoundMarker;
    assert m[..|NotFoundPrefix|] == NotFoundPrefix;
    assert m[|NotFoundPrefix| + |query|..] == " " + NotFoundMarker;
    ContainsAt(m, query, |NotFoundPrefix|);
    ContainsAt(m, NotFoundMarker, |m| - |NotFoundMarker|);
    m
  }

  /** The catalog keys as `/cities` and the 404 hint list them: every key
      exactly once, in table order. */
  function Cities(t: Table): (cs: seq<string>)
    ensures forall k :: k in cs <==> k in t.entries
    ensures forall i, j :: 0 <= i < j < |cs| ==> cs[i] != cs[j]
    ensures |cs| == |t.entries|
  {
    DistinctCardinality(t.keys);
    assert t.entries.Keys == set k | k in t.keys;
    t.keys
  }

  /** Classifies a `/weather` request: the query is lowercased, an empty or
      absent query is rejected, an unknown one is reported with the list of
      catalog keys, and a known one yields its catalog record unchanged. */
  function GetWeather(t: Table, city: Option<string>): (r: Outcome)
    ensures r.MissingCity? <==> city.None? || city.value == ""
    ensures r.Found? ==> city.Some? && Lower(city.value) in t.entries && r.data == t.entries[Lower(city.value)]
    ensures r.NotFound? ==> city.Some? && Lower(city.value) !in t.entries
    ensures r.NotFound? ==> r.query == Lower(city.value) && r.query != "" && r.availableCities == Cities(t)
  {
    var query := Lower(if city.Some? then city.value else "");
    if query == "" then MissingCity
    else if query !in t.entries then NotFound(query, Cities(t))
    else Found(t.entries[query])
  }

  /** The HTTP reply for an outcome; `now` is the response timestamp. */
  function Respond(o: Outcome, now: string): (r: Reply)
    ensures r.code == 200 <==> r.body.Status() == "success"
    ensures o.MissingCity? <==> r.code == 400
    ensures o.NotFound? <==> r.code == 404
    ensures o.Found? <==> r.code == 200
    ensures r.code == 400 ==> r.body == Failure(MissingCityMessage, None)
    ensures r.code == 404 ==> r.body.Failure? && r.body.availableCities == Some(o.availableCities)
    ensures r.code == 404 ==> Contains(r.body.error, o.query) && Contains(r.body.error, NotFoundMarker)
    ensures r.code == 200 ==> r.body == Success(o.data, now)
  {
    match o
    case MissingCity => Reply(400, Failure(MissingCityMessage, None))
    case NotFound(q, cs) => Reply(404, Failure(NotFoundMessage(q), Some(cs)))
    case Found(d) => Reply(200, Success(d, now))
  }

  /** `GET /weather`, with the query parameter `city` when present. */
  function WeatherEndpoint(t: Table, city: Option<string>, now: string): (r: Reply)
    ensures r.code == 400 || r.code == 404 || r.code == 200
    ensures r.code == 400 <==> city.None? || city.value == ""
    ensures r.code == 200 <==> city.Some? && city.value != "" && Lower(city.value) in t.entries
    ensures r.code == 400 ==> r.body == Failure(MissingCityMessage, None)
    ensures r.code == 404 ==> r.body.Failure? && r.body.availableCities == Some(Cities(t))
    ensures r.code == 404 ==> Contains(r.body.error, Lower(city.value)) && Contains(r.body.error, NotFoundMarker)
    ensures r.code == 200 ==> r.body.Success? && Lower(city.value) in t.entries && r.body.data == t.entries[Lower(city.value)] && r.body.timestamp == now
  {
    Respond(GetWeather(t, city), now)
  }

  /** `GET /cities`: every catalog key, in table order, with the timestamp. */
  function CitiesEndpoint(t: Table, now: string): (r: Reply)
    ensures r.code == 200 && r.body.Status() == "success"
    ensures r.body.CityList? && r.body.timestamp == now
    ensures r.body.cities == Cities(t)
    ensures forall k :: k in r.body.cities <==> k in t.entries
  {
    Reply(200, CityList(Cities(t), now))
  }

  // ---------------------------------------------------------------------------
  // Reference description of the outcomes, independent of the lowercasing
  // function: a query names a catalog key when the two differ only in case.

  ghost predicate Absent(city: Option<string>) {
    city.None? || city.value == ""
  }

  ghost predicate Names(t: Table, city: Option<string>, k: string) {
    city.Some? && k in t.keys && SameIgnoringCase(city.value, k)
  }

  ghost predicate Known(t: Table, city: Option<string>) {
    exists k :: Names(t, city, k)
  }

  /** With lowercase keys, a query names at most one key, and the key it names
      is its lowercase form. */
  lemma NamesIsLower(t: Table, city: Option<string>, k: string)
    requires KeysLowerCase(t)
    requires Names(t, city, k)
    ensures k == Lower(city.value)
  {
  }

  /** Every request has exactly one of the three outcomes, and which one is
      determined by the reference description: absent or empty queries are
      missing, queries naming a key up to case are found with that key's
      record, and every other query is not found. */
  lemma OutcomeMatchesReference(t: Table, city: Option<string>)
    requires KeysLowerCase(t)
    ensures GetWeather(t, city).MissingCity? <==> Absent(city)
    ensures GetWeather(t, city).Found? <==> !Absent(city) && Known(t, city)
    ensures GetWeather(t, city).NotFound? <==> !Absent(city) && !Known(t, city)
    ensures forall k :: Names(t, city, k) && !Absent(city) ==> GetWeather(t, city) == Found(t.entries[k])
  {
    var r := GetWeather(t, city);
    if r.Found? {
      var q := Lower(city.value);
      LowerIdempotent(city.value);
      SameIgnoringCaseIffLowerEqual(city.value, q);
      assert Names(t, city, q);
    }
    forall k | Names(t, city, k)
      ensures k == Lower(city.value)
    {
      NamesIsLower(t, city, k);
    }
  }

  // ---------------------------------------------------------------------------
  // Properties of the request handler.

  /** An absent `city` and an empty `city` are both the missing-parameter
      error. */
  lemma AbsentSameAsEmpty(t: Table, now: string)
    ensures GetWeather(t, None) == GetWeather(t, Some("")) == MissingCity
    ensures WeatherEndpoint(t, None, now) == WeatherEndpoint(t, Some(""), now)
              == Reply(400, Failure(MissingCityMessage, None))
  {
  }

  /** Two queries that differ only in letter case get the same reply. */
  lemma CaseInsensitive(t: Table, a: string, b: string, now: string)
    requires SameIgnoringCase(a, b)
    ensures GetWeather(t, Some(a)) == GetWeather(t, Some(b))
    ensures WeatherEndpoint(t, Some(a), now) == WeatherEndpoint(t, Some(b), now)
  {
    SameIgnoringCaseIffLowerEqual(a, b);
  }

  /** Every key of a lowercase-keyed table is reachable, by itself and by
      each of its case variants, and yields its own record. */
  lemma EveryEntryReachable(t: Table, k: string, s: string)
    requires KeysLowerCase(t)
    requires k in t.keys && k != ""
    requires SameIgnoringCase(s, k)
    ensures GetWeather(t, Some(k)) == Found(t.entries[k])
    ensures GetWeather(t, Some(s)) == Found(t.entries[k])
  {
    LowerFixedPoints(k);
    SameIgnoringCaseIffLowerEqual(s, k);
  }

  /** Lowercasing is the only normalisation: a found query agrees with the
      key it reached at every position that does not hold an upper-case
      letter, so spaces, hyphens and accents are compared literally. */
  lemma OnlyLowercasing(t: Table, s: string)
    ensures GetWeather(t, Some(s)).Found? <==> s != "" && Lower(s) in t.entries
    ensures GetWeather(t, Some(s)).Found? ==>
              forall i :: 0 <= i < |s| && !IsUpper(s[i]) ==> Lower(s)[i] == s[i]
  {
  }

  /** When no key starts (or ends) with a space, a query padded with a
      space is never found. */
  lemma PaddedQueryNotFound(t: Table, s: string)
    requires forall k :: k in t.keys ==> k == "" || (k[0] != ' ' && k[|k| - 1] != ' ')
    ensures GetWeather(t, Some(" " + s)).NotFound?
    ensures GetWeather(t, Some(s + " ")).NotFound?
  {
  }

  /** The key list in a 404 reply is the `/cities` list. */
  lemma NotFoundListsCities(t: Table, city: Option<string>, now: string)
    ensures WeatherEndpoint(t, city, now).code == 404 ==>
              WeatherEndpoint(t, city, now).body.availableCities
                == Some(CitiesEndpoint(t, now).body.cities)
  {
  }

  // ---------------------------------------------------------------------------
  // The shipped catalog.

  /** `/cities` on the shipped catalog lists its four keys in declaration
      order, and the list is non-empty. */
  lemma ShippedCities(now: string)
    ensures CitiesEndpoint(WeatherData(), now).body.cities == ["paris", "london", "new york", "tokyo"]
    ensures |CitiesEndpoint(WeatherData(), now).body.cities| > 0
  {
  }

  /** Every shipped entry is reachable under any case variant of its key, and
      a query padded with a space reaches none of them. */
  lemma ShippedCatalogLookups(k: string, s: string, p: string)
    requires k in WeatherData().keys && SameIgnoringCase(s, k)
    ensures GetWeather(WeatherData(), Some(s)) == Found(WeatherData().entries[k])
    ensures GetWeather(WeatherData(), Some(" " + p)).NotFound?
  {
    WeatherDataShape();
    EveryEntryReachable(WeatherData(), k, s);
    PaddedQueryNotFound(WeatherData(), p);
  }

  /** A hyphen is compared literally: `new-york` reaches no shipped entry,
      although `NEW YORK` does (see `ShippedCatalogLookups`). */
  lemma ShippedHyphenLiteral()
    ensures GetWeather(WeatherData(), Some("new-york")).NotFound?
  {
    var q := "new-york";
    assert Lower("new-york") == q;
    assert q != "new york" by { assert q[3] != "new york"[3]; }
    ShippedMiss(q);
  }

  /** An accent is compared literally: `P\U{e2}ris` reaches no shipped
      entry. */
  lemma ShippedAccentLiteral()
    ensures GetWeather(WeatherData(), Some("P\U{e2}ris")).NotFound?
  {
    var q := "p\U{e2}ris";
    assert Lower("P\U{e2}ris") == q;
    assert q != "paris" by { assert q[1] != "paris"[1]; }
    assert q != "tokyo" by { assert q[0] != "tokyo"[0]; }
    ShippedMiss(q);
  }

  /** The Kelvin sign lowercases to the ASCII letter `k`, so `TO\U{212A}YO`
      reaches the Tokyo record. */
  lemma ShippedKelvinSign()
    ensures GetWeather(WeatherData(), Some("TO\U{212A}YO")) == Found(WeatherData().entries["tokyo"])
  {
    assert Lower("TO\U{212A}YO") == "tokyo";
  }

  /** `/weather?city=Paris` answers 200 with the Paris record. */
  lemma ParisFound(now: string)
    ensures WeatherEndpoint(WeatherData(), Some("Paris"), now).code == 200
    ensures WeatherEndpoint(WeatherData(), Some("Paris"), now).body.Status() == "success"
    ensures WeatherEndpoint(WeatherData(), Some("Paris"), now).body.data.city == "Paris"
    ensures WeatherEndpoint(WeatherData(), Some("Paris"), now).body.timestamp == now
  {
    assert Lower("Paris") == "paris";
  }

  /** `/weather?city=Unknown` answers 404 with the catalog keys and a
      "non trouvées" message naming the lowercased query. */
  lemma UnknownNotFound(now: string)
    ensures WeatherEndpoint(WeatherData(), Some("Unknown"), now).code == 404
    ensures WeatherEndpoint(WeatherData(), Some("Unknown"), now).body.Status() == "error"
    ensures Contains(WeatherEndpoint(WeatherData(), Some("Unknown"), now).body.error, "unknown")
    ensures Contains(WeatherEndpoint(WeatherData(), Some("Unknown"), now).body.error, NotFoundMarker)
    ensures WeatherEndpoint(WeatherData(), Some("Unknown"), now).body.availableCities == Some(WeatherData().keys)
  {
    assert Lower("Unknown") == "unknown";
  }
}
