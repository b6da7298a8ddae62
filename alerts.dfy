/**
 * The consecutive-exceedance alert counter: `check_for_alerts` and the
 * module-level dictionary `alert_cache` (main.py:200-212).
 *
 * The pure functions below describe what the counter holds after a run of
 * readings; the class AlertEngine is the mutable dictionary itself, and its
 * method CheckForAlerts is proved against those functions.
 */
module Alerts {
  import Units

  /** An alert e-mail the program attempts to send: the city and the reading that fired it. */
  datatype Alert = Alert(city: string, temp: real)

  /** The new count of one city after one reading (main.py:206-207, 211-212). */
  function Step(count: nat, temp: real, threshold: real): nat
  {
    if temp > threshold then count + 1 else 0
  }

  /** Whether the reading that produced `count` sends an alert (main.py:206, 208). */
  predicate Fires(count: nat, temp: real, threshold: real, runLength: int)
  {
    temp > threshold && count >= runLength
  }

  /** The count after feeding `temps` in order, starting from `start`. */
  function CountFrom(start: nat, temps: seq<real>, threshold: real): nat
    decreases |temps|
  {
    if temps == [] then start
    else Step(CountFrom(start, temps[..|temps| - 1], threshold), temps[|temps| - 1], threshold)
  }

  /** The last `n` readings of `temps` all lie strictly above the threshold. */
  ghost predicate TrailingOver(temps: seq<real>, n: nat, threshold: real)
  {
    n <= |temps| && forall i :: |temps| - n <= i < |temps| ==> temps[i] > threshold
  }

  function Max(a: int, b: int): int
  {
    if a < b then b else a
  }

  /**
   * Each city's count is the length of the trailing run of strictly
   * over-threshold readings fed for that city: the last `count` readings are
   * over, the one before them (if any) is not, and no longer run exists.
   */
  lemma {:induction false} CountIsTrailingRun(temps: seq<real>, threshold: real)
    ensures TrailingOver(temps, CountFrom(0, temps, threshold), threshold)
    ensures CountFrom(0, temps, threshold) < |temps| ==>
              temps[|temps| - 1 - CountFrom(0, temps, threshold)] <= threshold
    ensures forall n: nat :: TrailingOver(temps, n, threshold) ==> n <= CountFrom(0, temps, threshold)
    decreases |temps|
  {
    if temps != [] {
      var prefix, last := temps[..|temps| - 1], temps[|temps| - 1];
      CountIsTrailingRun(prefix, threshold);
      var c := CountFrom(0, temps, threshold);
      if last > threshold {
        assert c == CountFrom(0, prefix, threshold) + 1;
        forall n: nat | TrailingOver(temps, n, threshold) ensures n <= c {
          if n > 0 {
            assert TrailingOver(prefix, n - 1, threshold) by {
              forall i | |prefix| - (n - 1) <= i < |prefix| ensures prefix[i] > threshold {
                assert prefix[i] == temps[i];
              }
            }
          }
        }
      } else {
        assert c == 0;
      }
    }
  }

  /**
   * An alert fires on the latest reading exactly when the last
   * max(runLength, 1) readings are all over the threshold: never with fewer
   * consecutive over-threshold readings, and on every further one while the
   * run lasts (the counter is not reset after firing).
   */
  lemma FiresIffRun(temps: seq<real>, threshold: real, runLength: int)
    requires temps != []
    ensures Fires(CountFrom(0, temps, threshold), temps[|temps| - 1], threshold, runLength)
            <==> TrailingOver(temps, Max(runLength, 1), threshold)
  {
    CountIsTrailingRun(temps, threshold);
    var c := CountFrom(0, temps, threshold);
    var last := temps[|temps| - 1];
    if Fires(c, last, threshold, runLength) {
      assert c >= Max(runLength, 1);
      assert TrailingOver(temps, Max(runLength, 1), threshold) by {
        forall i | |temps| - Max(runLength, 1) <= i < |temps| ensures temps[i] > threshold {
          assert |temps| - c <= i;
        }
      }
    }
  }

  /**
   * The rule compares the raw Kelvin reading with the configured threshold
   * as it stands, whatever the display scale. With a threshold of 35 and a
   * reading of 300 K (26.85 degrees Celsius) one reading fires under run
   * length 1, although the reading is below 35 in the Celsius display scale.
   */
  lemma ThresholdComparedInKelvin()
    ensures Fires(Step(0, 300.0, 35.0), 300.0, 35.0, 1)
    ensures Units.ConvertTemperature("Celsius", 300.0) < 35.0
  {
  }

  /** The value the program reads with `alert_cache.get(city, 0)`. */
  function Lookup(cache: map<string, nat>, city: string): nat
  {
    if city in cache then cache[city] else 0
  }

  /** The dictionary after `check_for_alerts(city, temp)`. */
  function Feed(cache: map<string, nat>, city: string, temp: real, threshold: real): map<string, nat>
  {
    cache[city := Step(Lookup(cache, city), temp, threshold)]
  }

  /** The dictionary after a sequence of `(city, temp)` checks, in order. */
  function Replay(cache: map<string, nat>, feed: seq<(string, real)>, threshold: real): map<string, nat>
    decreases |feed|
  {
    if feed == [] then cache
    else
      var (city, temp) := feed[|feed| - 1];
      Feed(Replay(cache, feed[..|feed| - 1], threshold), city, temp, threshold)
  }

  /** The alerts sent during that sequence of checks, in order. */
  function AlertsDuring(cache: map<string, nat>, feed: seq<(string, real)>, threshold: real, runLength: int): seq<Alert>
    decreases |feed|
  {
    if feed == [] then []
    else
      var prefix := feed[..|feed| - 1];
      var (city, temp) := feed[|feed| - 1];
      var after := Feed(Replay(cache, prefix, threshold), city, temp, threshold);
      AlertsDuring(cache, prefix, threshold, runLength)
        + if Fires(after[city], temp, threshold, runLength) then [Alert(city, temp)] else []
  }

  /** The readings for one city within a mixed sequence of checks. */
  function ReadingsFor(feed: seq<(string, real)>, city: string): seq<real>
    decreases |feed|
  {
    if feed == [] then []
    else ReadingsFor(feed[..|feed| - 1], city)
           + if feed[|feed| - 1].0 == city then [feed[|feed| - 1].1] else []
  }

  /** The cities checked at least once within a sequence of checks. */
  function CitiesOf(feed: seq<(string, real)>): set<string>
  {
    set i | 0 <= i < |feed| :: feed[i].0
  }

  /** The single-city reference: the readings that fire an alert, starting from count `start`. */
  function FiringsFrom(start: nat, temps: seq<real>, threshold: real, runLength: int): seq<real>
    decreases |temps|
  {
    if temps == [] then []
    else
      var prefix, last := temps[..|temps| - 1], temps[|temps| - 1];
      FiringsFrom(start, prefix, threshold, runLength)
        + if Fires(CountFrom(start, temps, threshold), last, threshold, runLength) then [last] else []
  }

  /** The temperatures of the alerts sent for one city. */
  function AlertTempsFor(alerts: seq<Alert>, city: string): seq<real>
    decreases |alerts|
  {
    if alerts == [] then []
    else AlertTempsFor(alerts[..|alerts| - 1], city)
           + if alerts[|alerts| - 1].city == city then [alerts[|alerts| - 1].temp] else []
  }

  /**
   * Counters of distinct cities are independent: interleaving checks for
   * several cities leaves each city with the count its own readings give.
   */
  lemma {:induction false} ReplayPerCity(cache: map<string, nat>, feed: seq<(string, real)>, city: string, threshold: real)
    ensures Lookup(Replay(cache, feed, threshold), city)
            == CountFrom(Lookup(cache, city), ReadingsFor(feed, city), threshold)
    decreases |feed|
  {
    if feed != [] {
      var prefix := feed[..|feed| - 1];
      ReplayPerCity(cache, prefix, city, threshold);
      var r := ReadingsFor(feed, city);
      if feed[|feed| - 1].0 == city {
        assert r[..|r| - 1] == ReadingsFor(prefix, city);
      } else {
        assert r == ReadingsFor(prefix, city);
      }
    }
  }

  /** A sequence of checks adds exactly the checked cities to the dictionary and touches no other entry. */
  lemma {:induction false} ReplayFrame(cache: map<string, nat>, feed: seq<(string, real)>, threshold: real)
    ensures Replay(cache, feed, threshold).Keys == cache.Keys + CitiesOf(feed)
    ensures forall city :: city !in CitiesOf(feed) && city in cache ==>
              Replay(cache, feed, threshold)[city] == cache[city]
    decreases |feed|
  {
    if feed != [] {
      var prefix := feed[..|feed| - 1];
      ReplayFrame(cache, prefix, threshold);
      assert CitiesOf(feed) == CitiesOf(prefix) + {feed[|feed| - 1].0} by {
        forall c | c in CitiesOf(feed) ensures c in CitiesOf(prefix) + {feed[|feed| - 1].0} {
          var i :| 0 <= i < |feed| && feed[i].0 == c;
          if i < |prefix| { assert prefix[i] == feed[i]; }
        }
        forall c | c in CitiesOf(prefix) ensures c in CitiesOf(feed) {
          var i :| 0 <= i < |prefix| && prefix[i].0 == c;
          assert feed[i] == prefix[i];
        }
      }
    }
  }

  /**
   * Alerts of distinct cities are independent too: the alerts sent for one
   * city in a mixed sequence are those its own readings would send alone.
   */
  lemma {:induction false} AlertsPerCity(cache: map<string, nat>, feed: seq<(string, real)>, city: string,
                                         threshold: real, runLength: int)
    ensures AlertTempsFor(AlertsDuring(cache, feed, threshold, runLength), city)
            == FiringsFrom(Lookup(cache, city), ReadingsFor(feed, city), threshold, runLength)
    decreases |feed|
  {
    if feed != [] {
      var prefix := feed[..|feed| - 1];
      var (c, t) := feed[|feed| - 1];
      AlertsPerCity(cache, prefix, city, threshold, runLength);
      var before := AlertsDuring(cache, prefix, threshold, runLength);
      var tail := if Fires(Feed(Replay(cache, prefix, threshold), c, t, threshold)[c], t, threshold, runLength)
                  then [Alert(c, t)] else [];
      var all := AlertsDuring(cache, feed, threshold, runLength);
      assert all == before + tail;
      var r := ReadingsFor(feed, city);
      if c == city {
        ReplayPerCity(cache, feed, city, threshold);
        assert r[..|r| - 1] == ReadingsFor(prefix, city);
        if tail == [] {
          assert all[..|all|] == before;
          assert all == before;
        } else {
          assert all[..|all| - 1] == before;
        }
      } else {
        assert r == ReadingsFor(prefix, city);
        if tail == [] {
          assert all == before;
        } else {
          assert all[..|all| - 1] == before;
        }
      }
    }
  }

  /**
   * Six readings with run length 3 and threshold 35: the reading of 34 resets
   * the count, so a single alert fires, on the sixth reading.
   */
  lemma ResetDelaysAlert()
    ensures FiringsFrom(0, [36.0, 37.0, 34.0, 38.0, 39.0, 40.0], 35.0, 3) == [40.0]
  {
    var s := [36.0, 37.0, 34.0, 38.0, 39.0, 40.0];
    assert s[..1] == [36.0] && [36.0][..0] == [];
    assert s[..2] == [36.0, 37.0] && [36.0, 37.0][..1] == [36.0];
    assert s[..3] == [36.0, 37.0, 34.0] && [36.0, 37.0, 34.0][..2] == [36.0, 37.0];
    assert s[..4] == [36.0, 37.0, 34.0, 38.0] && s[..4][..3] == s[..3];
    assert s[..5] == [36.0, 37.0, 34.0, 38.0, 39.0] && s[..5][..4] == s[..4];
    assert CountFrom(0, s[..2], 35.0) == 2;
    assert FiringsFrom(0, s[..2], 35.0, 3) == [];
    assert CountFrom(0, s[..3], 35.0) == 0;
    assert FiringsFrom(0, s[..3], 35.0, 3) == [];
    assert CountFrom(0, s[..4], 35.0) == 1;
    assert FiringsFrom(0, s[..4], 35.0, 3) == [];
    assert CountFrom(0, s[..5], 35.0) == 2;
    assert FiringsFrom(0, s[..5], 35.0, 3) == [];
  }

  /** Once the run is long enough, every further over-threshold reading fires again. */
  lemma AlertRepeatsWhileOver()
    ensures FiringsFrom(0, [36.0, 37.0, 38.0, 39.0, 40.0], 35.0, 3) == [38.0, 39.0, 40.0]
  {
    var s := [36.0, 37.0, 38.0, 39.0, 40.0];
    assert s[..1] == [36.0] && [36.0][..0] == [];
    assert s[..2] == [36.0, 37.0] && [36.0, 37.0][..1] == [36.0];
    assert s[..3] == [36.0, 37.0, 38.0] && [36.0, 37.0, 38.0][..2] == [36.0, 37.0];
    assert s[..4] == [36.0, 37.0, 38.0, 39.0] && s[..4][..3] == s[..3];
    assert CountFrom(0, s[..2], 35.0) == 2;
    assert FiringsFrom(0, s[..2], 35.0, 3) == [];
    assert CountFrom(0, s[..3], 35.0) == 3;
    assert FiringsFrom(0, s[..3], 35.0, 3) == [38.0];
    assert CountFrom(0, s[..4], 35.0) == 4;
    assert FiringsFrom(0, s[..4], 35.0, 3) == [38.0, 39.0];
  }

  /** The entry of `city` is the count of the readings recorded for it. */
  ghost predicate Agrees(cache: map<string, nat>, history: map<string, seq<real>>, threshold: real, city: string)
  {
    city in cache && city in history && cache[city] == CountFrom(0, history[city], threshold)
  }

  /**
   * `alert_cache` together with the threshold and run length read from the
   * environment (main.py:19-20). The ghost field `history` records every
   * reading fed per city and `sent` every alert e-mail attempted.
   */
  class AlertEngine {
    const threshold: real
    const runLength: int
    var cache: map<string, nat>
    ghost var history: map<string, seq<real>>
    ghost var sent: seq<Alert>

    /** Every entry of the dictionary is the count its city's readings give. */
    ghost predicate Valid()
      reads this
    {
      && cache.Keys == history.Keys
      && forall city {:trigger Agrees(cache, history, threshold, city)} ::
           city in cache ==> Agrees(cache, history, threshold, city)
    }

    /** The readings fed so far for one city. */
    ghost function HistoryOf(city: string): seq<real>
      reads this
    {
      if city in history then history[city] else []
    }

    /** The dictionary starts empty when the process starts (main.py:200). */
    constructor (threshold: real, runLength: int)
      ensures Valid()
      ensures this.threshold == threshold && this.runLength == runLength
      ensures cache == map[] && history == map[] && sent == []
    {
      this.threshold := threshold;
      this.runLength := runLength;
      cache := map[];
      history := map[];
      sent := [];
    }

    /**
     * check_for_alerts(city, temp): updates only this city's entry and
     * reports whether an alert e-mail was sent.
     */
    method CheckForAlerts(city: string, temp: real) returns (fired: bool)
      requires Valid()
      modifies this
      ensures Valid()
      ensures temp > threshold ==> cache == old(cache)[city := Lookup(old(cache), city) + 1]
      ensures temp <= threshold ==> cache == old(cache)[city := 0]
      ensures fired <==> temp > threshold && cache[city] >= runLength
      ensures fired <==> TrailingOver(history[city], Max(runLength, 1), threshold)
      ensures history == old(history)[city := old(HistoryOf(city)) + [temp]]
      ensures sent == old(sent) + if fired then [Alert(city, temp)] else []
    {
      ghost var cache0, history0 := cache, history;
      ghost var h := HistoryOf(city) + [temp];
      assert h[..|h| - 1] == HistoryOf(city);
      assert Lookup(cache, city) == CountFrom(0, HistoryOf(city), threshold) by {
        if city in cache { assert Agrees(cache, history, threshold, city); }
      }
      if temp > threshold {
        cache := cache[city := Lookup(cache, city) + 1];
        fired := cache[city] >= runLength;
        if fired {
          // send_email_alert(city, temp): the transport itself is not modelled.
          sent := sent + [Alert(city, temp)];
        }
      } else {
        cache := cache[city := 0];
        fired := false;
      }
      history := history[city := h];
      forall c | c in cache ensures Agrees(cache, history, threshold, c) {
        if c != city { assert Agrees(cache0, history0, threshold, c); }
      }
      FiresIffRun(h, threshold, runLength);
    }
  }

  /**
   * A run with threshold 313.15 K (40 degrees Celsius) and run length 2: two
   * readings above it send one alert, a reading below resets the count, and
   * the next reading above does not alert until a second one follows.
   */
  method HotCityScenario()
  {
    var engine := new AlertEngine(313.15, 2);
    var fired := engine.CheckForAlerts("Delhi", 314.0);
    assert !fired;
    fired := engine.CheckForAlerts("Delhi", 315.0);
    assert fired && engine.cache["Delhi"] == 2;
    fired := engine.CheckForAlerts("Delhi", 300.0);
    assert !fired && engine.cache["Delhi"] == 0;
    fired := engine.CheckForAlerts("Delhi", 314.0);
    assert !fired;
    fired := engine.CheckForAlerts("Mumbai", 320.0);
    assert !fired && engine.cache["Delhi"] == 1;
    fired := engine.CheckForAlerts("Delhi", 316.0);
    assert fired && |engine.sent| == 2;
  }
}
