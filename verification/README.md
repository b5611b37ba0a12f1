# Weather API request resolution, modelled in Dafny

The service answers `GET /weather?city=<name>` from a fixed in-memory
catalog, `WEATHER_DATA`, of four cities: `paris`, `london`, `new york` and
`tokyo`. It also answers `GET /cities` with the catalog's key list. The
request handler lowercases the `city` parameter. An absent or empty parameter
gets a 400 reply. A parameter that is not a catalog key gets a 404 reply that
lists every key. A catalog key gets its record unchanged.

The model has four modules:

- `Wrappers` (Wrappers.dfy): `Option`, for a query parameter that may be absent.
- `Text` (Text.dfy): the character-wise lowercasing that `str.lower` performs.
  It also holds case-insensitive equality and substring containment.
- `Catalog` (Catalog.dfy): a weather record, and an insertion-ordered
  dictionary. The dictionary is an ordered key list plus a map. The subset type
  `Table` carries the dictionary invariant: keys are unique, and the key list
  is exactly the map's domain. The shipped catalog is `WeatherData`.
- `Weather` (Weather.dfy): the three-way outcome `MissingCity | NotFound(query,
  availableCities) | Found(data)`. It has the classifier `GetWeather`, the
  HTTP replies for `/weather` and `/cities`, and the properties of both.

The handlers never change the catalog. Every operation takes the catalog as an
immutable value, so this holds by construction. The wall-clock timestamp of a
reply is a parameter, `now`, and is never read.

In `app.py`, lowercasing is the only normalisation of the query: there is no
accent stripping, no table of alternative spellings and no outside weather
provider. An unknown city's 404 reply always lists the catalog keys.

## Model

| member | source | states |
|---|---|---|
| `Text.Lower` | app.py:102 | Lowercasing keeps the length, maps each character through the per-character lowercase (ASCII, Latin-1, Greek and Cyrillic capitals, the Kelvin and Angstrom signs), and leaves no upper-case letter |
| `Text.LowerFixedPoints` | app.py:102 | A string is unchanged by lowercasing exactly when it contains no upper-case letter |
| `Text.LowerIdempotent` | app.py:102 | Lowercasing twice equals lowercasing once |
| `Text.SameIgnoringCaseIffLowerEqual` | app.py:102 | Two strings differ only in letter case exactly when their lowercase forms are equal |
| `Text.LowerAppend` | app.py:102 | Lowercasing distributes over concatenation, so surrounding characters such as spaces survive unchanged |
| `Catalog.WeatherData` | app.py:14-51 | The shipped catalog is a valid table whose keys are paris, london, new york, tokyo in that order, all lowercase, with every humidity between 0 and 100 and the record under paris naming "Paris" |
| `Catalog.ShippedCatalogValid` | app.py:14-51 | The four shipped keys are distinct, and the key list is exactly the record map's domain |
| `Catalog.WeatherDataShape` | app.py:14-51 | The shipped catalog has four keys, all lowercase, none empty, and none starting or ending with a space |
| `Catalog.ShippedMiss` | app.py:14-51 | No string other than the four shipped keys has a shipped record |
| `Weather.NotFoundMessage` | app.py:113 | The 404 message is exactly "Données météo pour ", then the lowercased query, then " non trouvées": each piece is fixed at its position and the length leaves room for nothing else |
| `Weather.Cities` | app.py:115 | The listed keys are exactly the catalog's domain, each listed once, one per entry |
| `Weather.GetWeather` | app.py:99-123 | Missing exactly when the parameter is absent or empty; found only with the record stored under the lowercased query; otherwise not found, with the lowercased non-empty query and the full key list |
| `Weather.Respond` | app.py:106-123 | Missing gives 400 with the fixed message; not-found gives 404 with the key list and a message naming the query; found gives 200 with the record and timestamp; status is "success" exactly for 200 |
| `Weather.WeatherEndpoint` | app.py:99-123 | Replies only 400, 404 or 200; 400 exactly for an absent or empty parameter, with the fixed message and no key list; 200 exactly when the lowercased non-empty query is a key, carrying that key's record; 404 lists the catalog keys and names the lowercased query |
| `Weather.CitiesEndpoint` | app.py:128-137 | `/cities` replies 200 with "success", the timestamp, and the key list of the 404 hint: each catalog key once, in table order |
| `Weather.OutcomeMatchesReference` | app.py:102-123 | With lowercase keys, each request has exactly one outcome, as a case-blind reference describes it: absent or empty is missing; naming a key up to case is found with that key's record; anything else is not found |
| `Weather.AbsentSameAsEmpty` | app.py:102-108 | An absent and an empty `city` both get the same 400 reply, "Le paramètre city est requis" |
| `Weather.CaseInsensitive` | app.py:102-110 | Two queries that differ only in letter case get the same outcome and the same reply |
| `Weather.EveryEntryReachable` | app.py:110-121 | With lowercase keys, each non-empty key and each of its case variants reaches that key's own record |
| `Weather.OnlyLowercasing` | app.py:102-110 | A query is found exactly when it is non-empty and its lowercase form is a key; a found query matches its key at every position that does not hold an upper-case letter |
| `Weather.PaddedQueryNotFound` | app.py:102-110 | When no key starts or ends with a space, a query with a leading or trailing space is never found |
| `Weather.NotFoundListsCities` | app.py:110-137 | The 404 `available_cities` list equals the `/cities` list |
| `Weather.ShippedCities` | app.py:128-137 | On the shipped catalog, `/cities` lists paris, london, new york, tokyo in that order, and the list is non-empty |
| `Weather.ShippedCatalogLookups` | app.py:110-121 | On the shipped catalog, every key is reached by any case variant of itself, and a space-padded query is not found |
| `Weather.ShippedHyphenLiteral` | app.py:102-110 | `new-york` is not found: a hyphen is not turned into a space |
| `Weather.ShippedAccentLiteral` | app.py:102-110 | `Pâris` is not found: accents are not stripped |
| `Weather.ShippedKelvinSign` | app.py:102-121 | `TO` + Kelvin sign + `YO` lowercases to `tokyo` and reaches the Tokyo record |
| `Weather.ParisFound` | test_app.py:10-20 | `/weather?city=Paris` replies 200, "success", with the record whose city is "Paris", and the timestamp |
| `Weather.UnknownNotFound` | test_app.py:31-39 | `/weather?city=Unknown` replies 404, "error", with a message containing "unknown" and "non trouvées", and lists the catalog keys |

## Left out

- Flask routing, `request.args` and `jsonify` are not modelled. The optional `city` parameter is an `Option<string>`, and a reply is a status code plus a body datatype.
- `get_current_utc_time` (app.py:54-55) reads the wall clock. The timestamp is the parameter `now`.
- Logging calls are left out. They have no effect on replies.
- The generic exception handler and its 500 reply (app.py:124-126, app.py:143-145) are left out. No step of the modelled decision can raise.
- The unmapped-route 404 handler (app.py:139-141) is a framework hook with a constant reply.
- The `/` and `/api` documentation replies (app.py:57-97) are constant data plus template rendering.
- Port parsing and `app.run` (app.py:147-149) are process start-up.
- Text.Lower: covers ASCII `A`-`Z`, the Latin-1 capitals U+00C0 to U+00DE except U+00D7, the Greek capitals U+0391 to U+03AB except U+03A3, the Cyrillic capitals U+0400 to U+042F, the Kelvin sign U+212A (lowercased to ASCII `k`) and the Angstrom sign U+212B. Every other character is left unchanged. Python's `str.lower` also lowercases the rest of Unicode. It turns U+0130 into two characters, and it lowercases the Greek sigma U+03A3 to a final or non-final form depending on its neighbours. Among characters outside ASCII, only the Kelvin sign lowercases to an ASCII letter, and the model covers it. U+0130 yields a combining dot that no key contains. So, for the shipped all-ASCII keys, found and not-found agree with the source for every query. The difference shows only in the lowercased query that a 404 message repeats: for a capital the model does not cover, the model keeps the capital.
- Accent stripping, the spelling-variant table, the weather provider client with its retries, and the `from_mock_data` flag belong to a richer version of the service. That version is not part of this model, since `app.py` has none of them.
