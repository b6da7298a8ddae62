# Weather monitor: alert counter, per-tick driver, daily-summary upsert

A Dafny model of the logic in `main.py` of a small weather-monitoring
service. On every scheduled tick the service polls a weather API for each
configured city, stores each reading in SQLite, and updates a per-city count
of consecutive readings above a temperature threshold. It sends an e-mail
alert once that count reaches a configured run length, then writes the
per-(city, date) daily rollups into a summary table. Temperatures are stored
in Kelvin and converted to a configured display scale for output.

Modules:

- `Units` (`units.dfy`): `kelvin_to_celsius`, `kelvin_to_fahrenheit` and
  `convert_temperature` over `real`. Each conversion is paired with its
  inverse.
- `Alerts` (`alerts.dfy`): the `check_for_alerts` rule and the global
  `alert_cache`. The class `AlertEngine` holds the dictionary as a
  `map<string, nat>` field. The threshold and run length are constructor
  parameters. Ghost fields record each city's readings and the alerts sent.
  Its invariant says each entry is the count its city's readings give. Pure
  functions (`Step`, `CountFrom`, `Replay`, `AlertsDuring`) describe the
  counter over whole sequences of readings.
- `Storage` (`storage.dfy`): the database file as the class `WeatherDb`. It
  holds the append-only `weather_data` rows as a `seq<Reading>` and the
  `daily_summary` table as a `map` keyed by (city, date). It has the insert
  of one reading and the update-or-insert loop of `generate_daily_summary`.
- `Monitor` (`monitor.dfy`): `weather_monitoring_task`. It visits the
  configured cities in order, with each fetch result given as an
  `Option<WeatherRecord>`, and then regenerates the summaries from the
  aggregation query's rows, given as an input.

The counter is not reset after an alert fires (main.py:207-210). So whether
an alert should fire once per run or on every further over-threshold reading
is left open by the program's intent. As written it fires on every further
reading, and this model follows that. `FiresIffRun` and
`AlertRepeatsWhileOver` state the repeated firing.

The rule compares the raw Kelvin reading with `ALERT_THRESHOLD_TEMP`
(main.py:206, 220, 229), but the messages report the threshold in the display
scale (main.py:182, 209). The model compares as written.
`ThresholdComparedInKelvin` shows the consequence: with threshold 35 and the
Celsius scale, a 300 K reading (26.85 degrees Celsius) counts as over the
threshold.

## Model

| member | source | states |
|---|---|---|
| `Units.KelvinToCelsius` | main.py:40-41 | the Celsius value converts back to the given Kelvin value; it is negative exactly below 273.15 K |
| `Units.KelvinToFahrenheit` | main.py:44-45 | the Fahrenheit value converts back to the given Kelvin value, and equals the Celsius value times 9/5 plus 32 |
| `Units.PassThrough` | main.py:48-53 | any scale name other than "Celsius" and "Fahrenheit" returns the Kelvin value unchanged |
| `Units.ConvertRoundTrip` | main.py:48-53 | for every scale name, converting to the display scale and back gives the original Kelvin value |
| `Units.DisplayRoundTrip` | main.py:48-53 | for every scale name, every display value comes from exactly one Kelvin value |
| `Units.ConvertTemperature` | main.py:48-53 | the display value converts back to the given Kelvin value under the same scale name; `PassThrough`, `ConvertRoundTrip` and `ConvertPreservesOrder` state the rest |
| `Units.ConvertPreservesOrder` | main.py:48-53 | every scale preserves strict order, both directions: a reading is above a Kelvin bound exactly when its display value is above the bound's display value |
| `Units.FreezingPoint` | main.py:40-53 | 273.15 K shows as 0 Celsius, 32 Fahrenheit, and unchanged under "Kelvin" |
| `Alerts.CountIsTrailingRun` | main.py:206-212 | a city's count is the length of the longest trailing run of strictly over-threshold readings: those readings are all over, the one before them is not, and no longer trailing run exists |
| `Alerts.FiresIffRun` | main.py:206-210 | an alert fires on a reading exactly when the last max(run length, 1) readings of that city are all above the threshold: never with fewer, and again on every further over-threshold reading |
| `Alerts.ResetDelaysAlert` | main.py:206-212 | readings 36, 37, 34, 38, 39, 40 with threshold 35 and run length 3 fire exactly one alert, on 40 |
| `Alerts.AlertRepeatsWhileOver` | main.py:206-210 | readings 36..40 with threshold 35 and run length 3 fire on 38, 39 and 40: the counter is not reset after firing |
| `Alerts.ThresholdComparedInKelvin` | main.py:206-210 | the raw Kelvin reading is compared with the threshold unconverted: with threshold 35 a 300 K reading fires under run length 1, though it shows below 35 in Celsius |
| `Alerts.ReplayPerCity` | main.py:200-212 | after any interleaving of checks for several cities, each city's entry is the count its own readings give from its own starting value (missing entries count as 0) |
| `Alerts.ReplayFrame` | main.py:202-212 | a sequence of checks adds exactly the checked cities to the dictionary and leaves every other entry unchanged |
| `Alerts.AlertsPerCity` | main.py:206-210 | the alerts sent for one city during an interleaving are exactly those its own readings would send alone |
| `Alerts.AlertEngine.constructor` | main.py:200 | the dictionary, the recorded readings and the alert log start empty; threshold and run length are as configured |
| `Alerts.AlertEngine.CheckForAlerts` | main.py:202-212 | a reading above the threshold sets the city's entry to its previous value (0 if missing) plus 1; any other reading sets it to 0; no other entry changes; it reports an alert exactly when the reading is above the threshold and the new count is at least the run length, which is exactly when the city's last max(run length, 1) readings are all above; one alert is logged per firing; the invariant is kept |
| `Storage.UpsertPerKey` | main.py:142-162 | after the upsert loop a key has an entry exactly when it was in the table or some row carries it; a key some row carries holds the values of the last such row; every other key keeps its old value |
| `Storage.UpsertLastWins` | main.py:142-162 | a row that no later row with the same (city, date) overrides is what the table holds for that key |
| `Storage.UpsertIdempotent` | main.py:142-162 | running the upsert loop twice with the same rows leaves the table as one run does |
| `Storage.WeatherDb.constructor` | main.py:56-86 | the database opens with the readings and summaries it already holds |
| `Storage.WeatherDb.InsertWeatherData` | main.py:89-112 | exactly one row (city, date, temp, feels-like, condition, timestamp) is appended to the readings; the summaries are unchanged |
| `Storage.WeatherDb.GenerateDailySummary` | main.py:142-162 | the summary table becomes the old table with each row's (city, date) key, in order, updated if present and inserted if not; readings are unchanged |
| `Monitor.TickRowsAppend` | main.py:216-219 | the rows stored for consecutive slices of the configured cities are concatenated in configured order |
| `Monitor.TickRowsFromSuccesses` | main.py:216-219 | every row stored in a tick is built from a configured city whose fetch succeeded |
| `Monitor.TickRowsPerCity` | main.py:216-219 | with distinct configured cities, a tick stores exactly one row for a city whose fetch succeeded (the one built from its reply) and none for a city whose fetch failed |
| `Monitor.TickFeedFor` | main.py:216-229 | with distinct configured cities, the alert checks of a tick include exactly one reading for a city whose fetch succeeded, and none for a failed or unconfigured city |
| `Monitor.TickCounterPerCity` | main.py:216-229 | with distinct configured cities, a tick moves a city's counter by one step of the alert rule if its fetch succeeded, and leaves it untouched if its fetch failed or it is not configured |
| `Monitor.TickAlertsPerCity` | main.py:216-229 | with distinct configured cities, a tick sends at most one alert per city, exactly when its fetch succeeded and the rule fires on its new count |
| `Monitor.VisitCity` | main.py:217-229 | a failed fetch changes nothing; a successful one appends one reading and then applies one alert check for that city |
| `Monitor.WeatherMonitoringTask` | main.py:215-231 | the readings grow by the tick's rows in configured order; the counters, recorded readings and alert log are those of feeding the successful cities' readings in order; the summaries are the old ones upserted with the aggregated rows; the alert invariant is kept |

## Left out

- `fetch_weather_data` (main.py:29-37): the HTTP request is network I/O. Each configured city's result is an input `Option<WeatherRecord>`. `None` stands for a failed request and for a reply that Python treats as false (an empty JSON object, main.py:218).
- `send_email_alert` (main.py:180-198): the SMTP transport is a foreign call. Each attempted e-mail is one entry of the ghost alert log `AlertEngine.sent`. An `SMTPException` is caught (main.py:197) and does not affect the counter, and the model agrees. Connection, DNS, timeout and TLS errors from `smtplib.SMTP(...)` or `starttls()` (main.py:191-192) are `OSError`s, which are not caught. They escape `check_for_alerts` (main.py:210), and the model does not capture them.
- The aggregation query (main.py:121-137) is not modelled. Which row SQLite takes for the bare `weather_condition` column is up to the engine, and the unqualified columns in the correlated subquery compare with themselves. Its output rows are an input `seq<SummaryRow>`, so the averages, extremes and dominant condition are not related to the stored readings.
- `setup_database` and the SQLite connections and commits (main.py:56-86, 95-112, 116-117, 172-177) are storage plumbing. The tables are the fields of `WeatherDb`.
- SQLite errors (main.py:108-109, 173-174) are not modelled. In the program, an error after the connection is open loses that row in an insert. In the summary pass such an error leaves `daily_summary` as it was: the only commit is after the loop (main.py:172), and `finally` closes without committing (main.py:175-177). If `sqlite3.connect` itself raises (main.py:96, 117), `conn` is unbound and `if conn:` (main.py:111, 176) raises `UnboundLocalError`, which aborts the tick. In the model every insert and every upsert succeeds.
- A reply missing `main.temp`, `main.feels_like`, `weather[0].main` or `dt` raises an uncaught `KeyError` (main.py:90-93). The model's `WeatherRecord` always carries these fields.
- `WeatherMonitoringTask`: an uncaught exception (the `KeyError` above, an unbound `conn`, an SMTP-side `OSError`) ends the program. It stops the remaining cities and the summary pass. `schedule.run_pending()` does not catch job exceptions, and the `while True` loop (main.py:238-240) has no handler, so the process exits and `alert_cache` is lost. The model always visits every configured city and always runs the summary pass.
- Deriving the date with `datetime.utcfromtimestamp(...).strftime` (main.py:100) is a library call. The date is a field of `WeatherRecord`.
- Console output (main.py:164-170, 222-227) is not modelled. This includes the display conversions of the current reading and of each summary row, and the `:.2f` formatting.
- IEEE floating-point rounding in the conversions and comparisons is not modelled. Exact rationals (`real`) stand in for Python floats.
- The `schedule`/`time.sleep` loop (main.py:233-240) and reading the environment (main.py:15-26) are scheduling and configuration I/O. A tick is one call of `WeatherMonitoringTask`, and the configuration values are parameters.
