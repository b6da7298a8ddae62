/**
 * One run of `weather_monitoring_task` (main.py:215-231): the configured
 * cities are visited in order; a city whose fetch failed is skipped, any
 * other gets one stored reading and one alert check; the daily summary is
 * regenerated at the end.
 */
module Monitor {
  import opened Wrappers
  import opened Alerts
  import opened Storage

  /** A configured city and what fetching its weather returned (None on a failed request). */
  type FetchResult = (string, Option<WeatherRecord>)

  /** Configured city names are dictionary keys, so they are pairwise distinct. */
  ghost predicate DistinctCities(results: seq<FetchResult>)
  {
    forall i, j :: 0 <= i < j < |results| ==> results[i].0 != results[j].0
  }

  /** The readings a tick stores, in configured order. */
  function TickRows(results: seq<FetchResult>): seq<Reading>
    decreases |results|
  {
    if results == [] then []
    else
      var (city, fetched) := results[|results| - 1];
      TickRows(results[..|results| - 1])
        + match fetched
          case Some(w) => [ReadingOf(city, w)]
          case None => []
  }

  /** The alert checks a tick performs, in configured order. */
  function TickFeed(results: seq<FetchResult>): seq<(string, real)>
    decreases |results|
  {
    if results == [] then []
    else
      var (city, fetched) := results[|results| - 1];
      TickFeed(results[..|results| - 1])
        + match fetched
          case Some(w) => [(city, w.temp)]
          case None => []
  }

  /** The readings recorded per city after a sequence of alert checks. */
  ghost function Record(history: map<string, seq<real>>, feed: seq<(string, real)>): map<string, seq<real>>
    decreases |feed|
  {
    if feed == [] then history
    else
      var before := Record(history, feed[..|feed| - 1]);
      var (city, temp) := feed[|feed| - 1];
      before[city := (if city in before then before[city] else []) + [temp]]
  }

  /** The number of stored readings for one city. */
  function RowsFor(rows: seq<Reading>, city: string): nat
  {
    |set i | 0 <= i < |rows| && rows[i].city == city|
  }

  /** Ticks over consecutive slices of the configured cities store their readings in that order. */
  lemma {:induction false} TickRowsAppend(a: seq<FetchResult>, b: seq<FetchResult>)
    ensures TickRows(a + b) == TickRows(a) + TickRows(b)
    decreases |b|
  {
    if b == [] {
      assert a + b == a;
    } else {
      var b' := b[..|b| - 1];
      assert (a + b)[..|a + b| - 1] == a + b';
      assert (a + b)[|a + b| - 1] == b[|b| - 1];
      TickRowsAppend(a, b');
    }
  }

  /** Every stored reading names a city whose fetch succeeded in this tick. */
  lemma {:induction false} TickRowsFromSuccesses(results: seq<FetchResult>, k: nat)
    requires k < |TickRows(results)|
    ensures exists i :: 0 <= i < |results| && results[i].1.Some?
                        && TickRows(results)[k] == ReadingOf(results[i].0, results[i].1.value)
    decreases |results|
  {
    var prefix := results[..|results| - 1];
    if k < |TickRows(prefix)| {
      TickRowsFromSuccesses(prefix, k);
      var i :| 0 <= i < |prefix| && prefix[i].1.Some?
               && TickRows(prefix)[k] == ReadingOf(prefix[i].0, prefix[i].1.value);
      assert results[i] == prefix[i];
    } else {
      assert results[|results| - 1].1.Some?;
    }
  }

  /**
   * With distinct configured cities, a tick stores exactly one reading for a
   * city whose fetch succeeded (the one built from its reply) and none for a
   * city whose fetch failed.
   */
  lemma {:induction false} TickRowsPerCity(results: seq<FetchResult>, i: nat)
    requires DistinctCities(results) && i < |results|
    ensures RowsFor(TickRows(results), results[i].0) == if results[i].1.Some? then 1 else 0
    ensures results[i].1.Some? ==> ReadingOf(results[i].0, results[i].1.value) in TickRows(results)
    decreases |results|
  {
    var city := results[i].0;
    var prefix := results[..|results| - 1];
    var rows := TickRows(results);
    var before := TickRows(prefix);
    var last := results[|results| - 1];
    var added := match last.1 case Some(w) => [ReadingOf(last.0, w)] case None => [];
    assert rows == before + added;
    var inBefore := set j | 0 <= j < |before| && before[j].city == city;
    var inRows := set j | 0 <= j < |rows| && rows[j].city == city;
    if i < |results| - 1 {
      assert prefix[i] == results[i];
      assert DistinctCities(prefix) by {
        forall a, b | 0 <= a < b < |prefix| ensures prefix[a].0 != prefix[b].0 {
          assert prefix[a] == results[a] && prefix[b] == results[b];
        }
      }
      TickRowsPerCity(prefix, i);
      assert last.0 != city;
      assert inRows == inBefore;
    } else {
      NoRowsFor(prefix, city);
      assert inBefore == {};
      if last.1.Some? {
        assert inRows == {|before|};
        assert rows[|before|] == ReadingOf(city, last.1.value);
      } else {
        assert inRows == {};
      }
    }
  }

  /** A city no entry of `results` names gets no stored reading. */
  lemma NoRowsFor(results: seq<FetchResult>, city: string)
    requires forall j :: 0 <= j < |results| ==> results[j].0 != city
    ensures forall k :: 0 <= k < |TickRows(results)| ==> TickRows(results)[k].city != city
  {
    forall k | 0 <= k < |TickRows(results)| ensures TickRows(results)[k].city != city {
      TickRowsFromSuccesses(results, k);
    }
  }

  /** The alert checks of a tick, seen from one city: its own reading if its fetch succeeded. */
  lemma {:induction false} TickFeedFor(results: seq<FetchResult>, city: string)
    requires DistinctCities(results)
    ensures forall i :: 0 <= i < |results| && results[i].0 == city ==>
              ReadingsFor(TickFeed(results), city)
              == match results[i].1 case Some(w) => [w.temp] case None => []
    ensures (forall i :: 0 <= i < |results| ==> results[i].0 != city) ==>
              ReadingsFor(TickFeed(results), city) == []
    decreases |results|
  {
    if results != [] {
      var prefix := results[..|results| - 1];
      var last := results[|results| - 1];
      assert DistinctCities(prefix) by {
        forall a, b | 0 <= a < b < |prefix| ensures prefix[a].0 != prefix[b].0 {
          assert prefix[a] == results[a] && prefix[b] == results[b];
        }
      }
      TickFeedFor(prefix, city);
      var feed := TickFeed(results);
      var added := match last.1 case Some(w) => [(last.0, w.temp)] case None => [];
      assert feed == TickFeed(prefix) + added;
      if last.0 == city {
        assert forall j :: 0 <= j < |prefix| ==> prefix[j].0 != city by {
          forall j | 0 <= j < |prefix| ensures prefix[j].0 != city {
            assert prefix[j] == results[j];
          }
        }
        if added == [] {
          assert feed == TickFeed(prefix);
        } else {
          assert feed[..|feed| - 1] == TickFeed(prefix);
        }
      } else {
        if added == [] {
          assert feed == TickFeed(prefix);
        } else {
          assert feed[..|feed| - 1] == TickFeed(prefix);
        }
        forall i | 0 <= i < |results| && results[i].0 == city
          ensures ReadingsFor(feed, city) == match results[i].1 case Some(w) => [w.temp] case None => []
        {
          assert i < |prefix| && prefix[i] == results[i];
        }
      }
    }
  }

  /**
   * With distinct configured cities, a tick moves each city's counter by one
   * step of the alert rule if its fetch succeeded, and leaves it untouched
   * if its fetch failed or it is not configured.
   */
  lemma TickCounterPerCity(cache: map<string, nat>, results: seq<FetchResult>, city: string, threshold: real)
    requires DistinctCities(results)
    ensures forall i :: 0 <= i < |results| && results[i].0 == city ==>
              Lookup(Replay(cache, TickFeed(results), threshold), city)
              == match results[i].1
                 case Some(w) => Step(Lookup(cache, city), w.temp, threshold)
                 case None => Lookup(cache, city)
    ensures (forall i :: 0 <= i < |results| ==> results[i].0 != city) ==>
              Lookup(Replay(cache, TickFeed(results), threshold), city) == Lookup(cache, city)
  {
    TickFeedFor(results, city);
    ReplayPerCity(cache, TickFeed(results), city, threshold);
    var r := ReadingsFor(TickFeed(results), city);
    if |r| == 1 {
      assert r[..0] == [];
    }
  }

  /** One more alert check extends the replayed dictionary, history and alert log by one step. */
  lemma ExtendFeed(cache: map<string, nat>, history: map<string, seq<real>>, feed: seq<(string, real)>,
                   city: string, temp: real, threshold: real, runLength: int)
    ensures var after := Feed(Replay(cache, feed, threshold), city, temp, threshold);
            && Replay(cache, feed + [(city, temp)], threshold) == after
            && AlertsDuring(cache, feed + [(city, temp)], threshold, runLength)
               == AlertsDuring(cache, feed, threshold, runLength)
                  + (if Fires(after[city], temp, threshold, runLength) then [Alert(city, temp)] else [])
            && Record(history, feed + [(city, temp)])
               == (var before := Record(history, feed);
                   before[city := (if city in before then before[city] else []) + [temp]])
  {
    assert (feed + [(city, temp)])[..|feed|] == feed;
  }

  /**
   * With distinct configured cities, a tick sends at most one alert per
   * city: one exactly when its fetch succeeded and the alert rule fires on
   * its new count.
   */
  lemma TickAlertsPerCity(cache: map<string, nat>, results: seq<FetchResult>, i: nat, threshold: real, runLength: int)
    requires DistinctCities(results) && i < |results|
    ensures AlertTempsFor(AlertsDuring(cache, TickFeed(results), threshold, runLength), results[i].0)
            == match results[i].1
               case Some(w) =>
                 if Fires(Step(Lookup(cache, results[i].0), w.temp, threshold), w.temp, threshold, runLength)
                 then [w.temp] else []
               case None => []
  {
    var city := results[i].0;
    TickFeedFor(results, city);
    AlertsPerCity(cache, TickFeed(results), city, threshold, runLength);
    var r := ReadingsFor(TickFeed(results), city);
    if |r| == 1 {
      assert r[..0] == [];
      assert CountFrom(Lookup(cache, city), r, threshold) == Step(Lookup(cache, city), r[0], threshold);
    }
  }

  /** Visiting one more configured city extends the tick's readings and checks by that city's. */
  lemma TickStep(results: seq<FetchResult>, i: nat)
    requires i < |results|
    ensures results[i].1.None? ==> TickRows(results[..i + 1]) == TickRows(results[..i])
    ensures results[i].1.None? ==> TickFeed(results[..i + 1]) == TickFeed(results[..i])
    ensures results[i].1.Some? ==>
              TickRows(results[..i + 1]) == TickRows(results[..i]) + [ReadingOf(results[i].0, results[i].1.value)]
    ensures results[i].1.Some? ==>
              TickFeed(results[..i + 1]) == TickFeed(results[..i]) + [(results[i].0, results[i].1.value.temp)]
  {
    assert results[..i + 1][..i] == results[..i];
  }

  /**
   * The body of the loop in weather_monitoring_task for one configured city:
   * nothing happens when its fetch failed; otherwise its reading is stored
   * and then fed to the alert check.
   */
  method VisitCity(engine: AlertEngine, db: WeatherDb, city: string, fetched: Option<WeatherRecord>)
    requires engine.Valid()
    modifies engine, db
    ensures engine.Valid()
    ensures db.summaries == old(db.summaries)
    ensures fetched.None? ==> db.readings == old(db.readings)
    ensures fetched.None? ==>
              engine.cache == old(engine.cache) && engine.history == old(engine.history) && engine.sent == old(engine.sent)
    ensures fetched.Some? ==> db.readings == old(db.readings) + [ReadingOf(city, fetched.value)]
    ensures fetched.Some? ==>
              var temp := fetched.value.temp;
              var after := Feed(old(engine.cache), city, temp, engine.threshold);
              && engine.cache == after
              && engine.history == old(engine.history)[city := old(engine.HistoryOf(city)) + [temp]]
              && engine.sent == old(engine.sent)
                                + if Fires(after[city], temp, engine.threshold, engine.runLength)
                                  then [Alert(city, temp)] else []
  {
    if fetched.Some? {
      var w := fetched.value;
      db.InsertWeatherData(city, w);
      // The reading is also shown in the display scale; console output is not modelled.
      var fired := engine.CheckForAlerts(city, w.temp);
    }
  }

  /**
   * weather_monitoring_task, with the replies of the weather service given
   * as `results` (in configured order) and the rows of the aggregation
   * query given as `aggregated`.
   */
  method WeatherMonitoringTask(engine: AlertEngine, db: WeatherDb,
                               results: seq<FetchResult>, aggregated: seq<SummaryRow>)
    requires engine.Valid()
    modifies engine, db
    ensures engine.Valid()
    ensures db.readings == old(db.readings) + TickRows(results)
    ensures engine.cache == Replay(old(engine.cache), TickFeed(results), engine.threshold)
    ensures engine.history == Record(old(engine.history), TickFeed(results))
    ensures engine.sent
            == old(engine.sent) + AlertsDuring(old(engine.cache), TickFeed(results), engine.threshold, engine.runLength)
    ensures db.summaries == UpsertAll(old(db.summaries), aggregated)
  {
    ghost var cache0, history0, sent0 := engine.cache, engine.history, engine.sent;
    ghost var feed: seq<(string, real)> := [];
    var i := 0;
    while i < |results|
      invariant 0 <= i <= |results|
      invariant feed == TickFeed(results[..i])
      invariant engine.Valid()
      invariant db.readings == old(db.readings) + TickRows(results[..i])
      invariant db.summaries == old(db.summaries)
      invariant engine.cache == Replay(cache0, feed, engine.threshold)
      invariant engine.history == Record(history0, feed)
      invariant engine.sent == sent0 + AlertsDuring(cache0, feed, engine.threshold, engine.runLength)
    {
      var city, fetched := results[i].0, results[i].1;
      TickStep(results, i);
      if fetched.Some? {
        ExtendFeed(cache0, history0, feed, city, fetched.value.temp, engine.threshold, engine.runLength);
        feed := feed + [(city, fetched.value.temp)];
      }
      VisitCity(engine, db, city, fetched);
      i := i + 1;
    }
    assert results[..|results|] == results;
    db.GenerateDailySummary(aggregated);
  }
}
