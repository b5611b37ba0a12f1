/**
 * The static weather catalog: a table from lowercase city keys to weather
 * records, built once when the service starts and never changed afterwards.
 */
module Catalog {
  import opened Text

  /** One catalog record, with the fields the service returns as `data`. */
  datatype WeatherRecord = WeatherRecord(
    city: string,
    country: string,
    temperature: int,   // degrees Celsius
    weather: string,    // French condition label
    humidity: int,      // percent
    windSpeed: int,     // km/h
    lastUpdated: string // ISO-8601, UTC
  )

  /** An insertion-ordered dictionary: `keys` lists the keys in table order,
      `entries` holds the records. */
  datatype Catalog = Catalog(keys: seq<string>, entries: map<string, WeatherRecord>) {

    /** The key list is duplicate-free and lists exactly the map's domain. */
    predicate Valid() {
      && (forall i, j :: 0 <= i < j < |keys| ==> keys[i] != keys[j])
      && (forall k :: k in entries ==> k in keys)
      && (forall k :: k in keys ==> k in entries)
    }
  }

  /** A sequence without duplicates has as many distinct elements as entries. */
  lemma {:induction false} DistinctCardinality<T>(s: seq<T>)
    requires forall i, j :: 0 <= i < j < |s| ==> s[i] != s[j]
    ensures |set x | x in s| == |s|
  {
    if s != [] {
      var rest := s[1..];
      DistinctCardinality(rest);
      assert (set x | x in s) == (set x | x in rest) + {s[0]};
      assert forall j :: 0 <= j < |rest| ==> rest[j] == s[j + 1];
      assert s[0] !in rest;
    }
  }

  /** A catalog that satisfies the dictionary invariant. */
  type Table = c: Catalog | c.Valid() witness Catalog([], map[])

  /** Every key of the table is already in lowercase. */
  predicate KeysLowerCase(t: Table) {
    forall k :: k in t.keys ==> IsLowerCase(k)
  }

  /** The keys of the shipped catalog, in declaration order. */
  const CityKeys: seq<string> := ["paris", "london", "new york", "tokyo"]

  /** The records of the shipped catalog, by key. */
  const CityRecords: map<string, WeatherRecord> := map[
    "paris" := WeatherRecord("Paris", "France", 15, "Ensoleill\U{e9}", 70, 10, "2023-06-15T10:00:00Z"),
    "london" := WeatherRecord("Londres", "Royaume-Uni", 12, "Nuageux", 85, 15, "2023-06-15T09:30:00Z"),
    "new york" := WeatherRecord("New York", "\U{c9}tats-Unis", 20, "Ensoleill\U{e9}", 60, 8, "2023-06-15T04:00:00Z"),
    "tokyo" := WeatherRecord("Tokyo", "Japon", 25, "Pluvieux", 90, 12, "2023-06-15T18:00:00Z")
  ]

  /** The shipped key list and record map form a valid dictionary. */
  lemma ShippedCatalogValid()
    ensures CityRecords.Keys == {"paris", "london", "new york", "tokyo"}
    ensures Catalog(CityKeys, CityRecords).Valid()
  {
    assert "paris" != "london" && "paris" != "new york" && "paris" != "tokyo";
    assert "london" != "new york" && "london" != "tokyo" && "new york" != "tokyo";
  }

  /** Every shipped key is lowercase and has no space at either end. */
  lemma ShippedKeysPlain()
    ensures forall k :: k in CityKeys ==> IsLowerCase(k) && k != [] && k[0] != ' ' && k[|k| - 1] != ' '
  {
    forall k | k in CityKeys
      ensures IsLowerCase(k) && k != [] && k[0] != ' ' && k[|k| - 1] != ' '
    {
      assert k == CityKeys[0] || k == CityKeys[1] || k == CityKeys[2] || k == CityKeys[3];
    }
  }

  /** Every shipped humidity is a percentage, and the record under `paris`
      names the city Paris. */
  lemma ShippedRecordFacts()
    ensures forall k :: k in CityRecords ==> 0 <= CityRecords[k].humidity <= 100
    ensures "paris" in CityRecords && CityRecords["paris"].city == "Paris"
  {
    ShippedCatalogValid();
  }

  /** The catalog the service ships with: four cities in declaration order,
      each under its lowercase key, with humidities given in percent. */
  function WeatherData(): (t: Table)
    ensures t.keys == ["paris", "london", "new york", "tokyo"]
    ensures KeysLowerCase(t)
    ensures forall k :: k in t.entries ==> 0 <= t.entries[k].humidity <= 100
    ensures "paris" in t.entries && t.entries["paris"].city == "Paris"
  {
    ShippedCatalogValid();
    ShippedKeysPlain();
    ShippedRecordFacts();
    var t := Catalog(CityKeys, CityRecords);
    assert t.keys == CityKeys && t.entries == CityRecords;
    t
  }

  /** The shipped catalog is non-empty, every key is lowercase, and no key
      begins or ends with a space. */
  lemma WeatherDataShape()
    ensures |WeatherData().keys| == 4
    ensures WeatherData().entries.Keys == {"paris", "london", "new york", "tokyo"}
    ensures KeysLowerCase(WeatherData())
    ensures forall k :: k in WeatherData().keys ==> k != [] && k[0] != ' ' && k[|k| - 1] != ' '
  {
    ShippedCatalogValid();
    ShippedKeysPlain();
    assert WeatherData().keys == CityKeys;
  }

  /** The shipped table's key list is the declared one. */
  lemma ShippedKeyList()
    ensures WeatherData().keys == CityKeys
  {
  }

  /** A string absent from a table's key list is absent from its map. */
  lemma AbsentFromKeys(t: Table, q: string)
    requires q !in t.keys
    ensures q !in t.entries
  {
  }

  /** A string other than the four shipped keys has no shipped record. */
  lemma ShippedMiss(q: string)
    requires q != "paris" && q != "london" && q != "new york" && q != "tokyo"
    ensures q !in WeatherData().entries
  {
    assert q !in CityKeys;
    ShippedKeyList();
    AbsentFromKeys(WeatherData(), q);
  }
}
