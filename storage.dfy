/**
 * The two tables of the SQLite file `weather_data.db` (main.py:56-86): the
 * raw `weather_data` readings, which only grow, and `daily_summary`, keyed
 * by (city, date) (main.py:78), together with the insert of one reading
 * (main.py:89-112) and the update-or-insert loop over the aggregated rows
 * (main.py:142-162).
 */
module Storage {
  import opened Wrappers

  /** The fields of the provider's reply that the program reads (main.py:90-93, 100). */
  datatype WeatherRecord = WeatherRecord(
    temp: real,
    feelsLike: real,
    condition: string,
    timestamp: int,
    date: string)

  /** One row of the `weather_data` table (main.py:61-68). */
  datatype Reading = Reading(
    city: string,
    date: string,
    temp: real,
    feelsLike: real,
    condition: string,
    timestamp: int)

  /** The primary key of `daily_summary`: (city, date). */
  type Key = (string, string)

  /** The non-key columns of a `daily_summary` row (main.py:74-77). */
  datatype Summary = Summary(avgTemp: real, maxTemp: real, minTemp: real, dominantCondition: string)

  /** One row returned by the aggregation query (main.py:143); the query itself is not modelled. */
  datatype SummaryRow = SummaryRow(
    city: string,
    date: string,
    avgTemp: real,
    maxTemp: real,
    minTemp: real,
    dominantCondition: string)

  function KeyOf(row: SummaryRow): Key
  {
    (row.city, row.date)
  }

  function ValueOf(row: SummaryRow): Summary
  {
    Summary(row.avgTemp, row.maxTemp, row.minTemp, row.dominantCondition)
  }

  /** The row `insert_weather_data(city, w)` adds (main.py:102-105). */
  function ReadingOf(city: string, w: WeatherRecord): Reading
  {
    Reading(city, w.date, w.temp, w.feelsLike, w.condition, w.timestamp)
  }

  /** The summary table after the aggregated rows have been written in order. */
  function UpsertAll(table: map<Key, Summary>, rows: seq<SummaryRow>): map<Key, Summary>
    decreases |rows|
  {
    if rows == [] then table
    else
      var row := rows[|rows| - 1];
      UpsertAll(table, rows[..|rows| - 1])[KeyOf(row) := ValueOf(row)]
  }

  /** The keys the aggregated rows carry. */
  function KeysOf(rows: seq<SummaryRow>): set<Key>
  {
    set i | 0 <= i < |rows| :: KeyOf(rows[i])
  }

  /** The reference for one key: the values of the last row carrying it, if any. */
  function LastFor(rows: seq<SummaryRow>, key: Key): Option<Summary>
    decreases |rows|
  {
    if rows == [] then None
    else if KeyOf(rows[|rows| - 1]) == key then Some(ValueOf(rows[|rows| - 1]))
    else LastFor(rows[..|rows| - 1], key)
  }

  /**
   * After the upsert loop each key of the rows has exactly one entry, holding
   * the values of the last row with that key; every other key is as before.
   */
  lemma {:induction false} UpsertPerKey(table: map<Key, Summary>, rows: seq<SummaryRow>, key: Key)
    ensures key in UpsertAll(table, rows) <==> key in table || key in KeysOf(rows)
    ensures LastFor(rows, key).Some? <==> key in KeysOf(rows)
    ensures LastFor(rows, key).Some? ==> UpsertAll(table, rows)[key] == LastFor(rows, key).value
    ensures LastFor(rows, key).None? && key in table ==> UpsertAll(table, rows)[key] == table[key]
    decreases |rows|
  {
    if rows != [] {
      var prefix := rows[..|rows| - 1];
      UpsertPerKey(table, prefix, key);
      assert KeysOf(rows) == KeysOf(prefix) + {KeyOf(rows[|rows| - 1])} by {
        forall k | k in KeysOf(rows) ensures k in KeysOf(prefix) + {KeyOf(rows[|rows| - 1])} {
          var i :| 0 <= i < |rows| && KeyOf(rows[i]) == k;
          if i < |prefix| { assert prefix[i] == rows[i]; }
        }
        forall k | k in KeysOf(prefix) ensures k in KeysOf(rows) {
          var i :| 0 <= i < |prefix| && KeyOf(prefix[i]) == k;
          assert rows[i] == prefix[i];
        }
      }
    }
  }

  /** The same statement by position: a row no later row overrides is what the table holds. */
  lemma UpsertLastWins(table: map<Key, Summary>, rows: seq<SummaryRow>, i: nat)
    requires i < |rows|
    requires forall j :: i < j < |rows| ==> KeyOf(rows[j]) != KeyOf(rows[i])
    ensures KeyOf(rows[i]) in UpsertAll(table, rows)
    ensures UpsertAll(table, rows)[KeyOf(rows[i])] == ValueOf(rows[i])
  {
    LastIsAt(rows, i);
    UpsertPerKey(table, rows, KeyOf(rows[i]));
  }

  lemma {:induction false} LastIsAt(rows: seq<SummaryRow>, i: nat)
    requires i < |rows|
    requires forall j :: i < j < |rows| ==> KeyOf(rows[j]) != KeyOf(rows[i])
    ensures LastFor(rows, KeyOf(rows[i])) == Some(ValueOf(rows[i]))
    decreases |rows|
  {
    if i < |rows| - 1 {
      var prefix := rows[..|rows| - 1];
      assert prefix[i] == rows[i];
      LastIsAt(prefix, i);
    }
  }

  /** Re-running the upsert with the same rows leaves the table as the first run left it. */
  lemma UpsertIdempotent(table: map<Key, Summary>, rows: seq<SummaryRow>)
    ensures UpsertAll(UpsertAll(table, rows), rows) == UpsertAll(table, rows)
  {
    var once := UpsertAll(table, rows);
    var twice := UpsertAll(once, rows);
    forall key | key in twice || key in once ensures key in twice && key in once && twice[key] == once[key] {
      UpsertPerKey(table, rows, key);
      UpsertPerKey(once, rows, key);
    }
  }

  /**
   * The database file. `setup_database` creates the tables only if they do
   * not exist, so a run starts from whatever an earlier run left behind;
   * the connection handling and commits are not modelled.
   */
  class WeatherDb {
    var readings: seq<Reading>
    var summaries: map<Key, Summary>

    /** Opens a file holding `readings` and `summaries` (both empty for a new file). */
    constructor (readings: seq<Reading>, summaries: map<Key, Summary>)
      ensures this.readings == readings && this.summaries == summaries
    {
      this.readings := readings;
      this.summaries := summaries;
    }

    /** insert_weather_data: appends one row and leaves the summaries alone. */
    method InsertWeatherData(city: string, w: WeatherRecord)
      modifies this
      ensures readings == old(readings) + [ReadingOf(city, w)]
      ensures summaries == old(summaries)
    {
      readings := readings + [Reading(city, w.date, w.temp, w.feelsLike, w.condition, w.timestamp)];
    }

    /**
     * The loop of generate_daily_summary: for each aggregated row, update
     * the summary of its (city, date) if one exists, insert one otherwise.
     */
    method GenerateDailySummary(rows: seq<SummaryRow>)
      modifies this
      ensures summaries == UpsertAll(old(summaries), rows)
      ensures readings == old(readings)
    {
      var i := 0;
      while i < |rows|
        invariant 0 <= i <= |rows|
        invariant summaries == UpsertAll(old(summaries), rows[..i])
        invariant readings == old(readings)
      {
        var row := rows[i];
        var key := (row.city, row.date);
        var value := Summary(row.avgTemp, row.maxTemp, row.minTemp, row.dominantCondition);
        if key in summaries {
          // UPDATE daily_summary ... WHERE city = ? AND date = ?
          summaries := summaries[key := value];
        } else {
          // INSERT INTO daily_summary ...
          summaries := summaries[key := value];
        }
        assert rows[..i + 1][..i] == rows[..i];
        i := i + 1;
      }
      assert rows[..|rows|] == rows;
    }
  }
}
